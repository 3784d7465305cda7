/**
 The byte keys of the buckets (storage/bbolt.go, storage/truncate.go): every key decodes back
 to what it was built from, and each cursor scan of truncation selects exactly the rows that
 the decoded keys say. This is what lets the other modules speak of rows by decoded key.
 */
module IndexKeys {
  import opened Bytes
  import opened IndexTypes

  const COLON: byte := 58
  const BAR: byte := 124
  const AT: byte := 64

  /** Heights are 0 .. 2^63 - 2, so that the successor of one still fits an int64. */
  const MAX_HEIGHT := 0x7FFF_FFFF_FFFF_FFFE

  function EncHeight(h: nat): bytes { BigEndian(h, 8) }
  function DecHeight(b: bytes): nat { FromBigEndian(b) }

  /** bytes.IndexByte: the first position of c. */
  function Index(k: bytes, c: byte): (i: int)
    ensures -1 <= i < |k|
    ensures i >= 0 ==> k[i] == c && c !in k[..i]
    ensures i < 0 ==> c !in k
  {
    if k == [] then -1
    else if k[0] == c then 0
    else
      var i := Index(k[1..], c);
      if i < 0 then -1 else i + 1
  }

  /** bytes.LastIndexByte: the last position of c. */
  function LastIndex(k: bytes, c: byte): (i: int)
    ensures -1 <= i < |k|
    ensures i >= 0 ==> k[i] == c && c !in k[i + 1..]
    ensures i < 0 ==> c !in k
  {
    if k == [] then -1
    else if k[|k| - 1] == c then |k| - 1
    else
      var i := LastIndex(k[..|k| - 1], c);
      assert i >= 0 ==> k[i + 1..] == k[..|k| - 1][i + 1..] + [k[|k| - 1]];
      i
  }

  lemma FirstIndex(a: bytes, c: byte, rest: bytes)
    requires c !in a
    ensures Index(a + [c] + rest, c) == |a|
  {
    var k := a + [c] + rest;
    var i := Index(k, c);
    assert k[|a|] == c;
    assert forall j | 0 <= j < |a| :: k[j] == a[j];
    assert forall j | 0 <= j < i :: k[..i][j] == k[j];
  }

  lemma FinalIndex(a: bytes, c: byte, rest: bytes)
    requires c !in rest
    ensures LastIndex(a + [c] + rest, c) == |a|
  {
    var k := a + [c] + rest;
    var i := LastIndex(k, c);
    assert k[|a|] == c;
    assert forall j | |a| < j < |k| :: k[j] in rest;
    assert forall j | i < j < |k| :: k[j] in k[i + 1..];
  }

  // ---------- Decimal heights (strconv) ----------

  function Decimal(n: nat): (b: bytes)
    ensures |b| >= 1
    ensures forall d <- b :: 48 <= d <= 57
  {
    if n < 10 then [48 + n] else Decimal(n / 10) + [48 + n % 10]
  }

  /** strconv.ParseInt on an unsigned digit string; anything else is an error here. */
  function ParseDecimal(b: bytes): Option<nat> {
    if b == [] then None
    else
      var d := b[|b| - 1];
      if !(48 <= d <= 57) then None
      else if |b| == 1 then Some(d - 48)
      else match ParseDecimal(b[..|b| - 1])
        case None => None
        case Some(n) => Some(10 * n + (d - 48))
  }

  lemma {:induction false} DecimalRoundTrip(n: nat)
    ensures ParseDecimal(Decimal(n)) == Some(n)
  {
    if n >= 10 {
      DecimalRoundTrip(n / 10);
      var b := Decimal(n);
      assert b[..|b| - 1] == Decimal(n / 10);
    }
  }

  // ---------- Builders ----------

  function HeightKey(scid: bytes, h: nat): bytes { scid + [COLON] + EncHeight(h) }
  function ScVarsKey(scid: bytes, h: nat): bytes { scid + [COLON] + Decimal(h) }
  function InstallKey(h: nat, scid: bytes): bytes { EncHeight(h) + [BAR] + scid }
  function ClassRowKey(className: bytes, h: nat, scid: bytes): bytes {
    className + [BAR] + (EncHeight(h) + [BAR] + scid)
  }

  function OwnerScidKey(owner: bytes, scid: bytes): bytes { owner + [BAR] + scid }
  function TelaContentKey(scid: bytes, path: bytes): bytes { scid + [BAR] + path }
  function BatchInstallKey(scid: bytes, h: nat): bytes { scid + [AT] + Decimal(h) }

  function NormTxKey(addr: bytes, h: nat, txid: bytes, scid: bytes): bytes {
    addr + [COLON] + (EncHeight(h) + [COLON] + txid + [COLON] + scid)
  }

  function InvocationKey(sender: bytes, txid: bytes, h: nat, entrypoint: bytes): bytes {
    sender + [COLON] + (txid + [COLON] + (Decimal(h) + [COLON] + entrypoint))
  }

  // ---------- Decoders, as the truncation predicates use them ----------

  function SplitHeightKey(k: bytes): Option<(bytes, nat)> {
    var sep := Index(k, COLON);
    if sep < 0 || |k| != sep + 1 + 8 then None else Some((k[..sep], DecHeight(k[sep + 1..])))
  }

  function SplitScVarsKey(k: bytes): Option<(bytes, nat)> {
    var sep := Index(k, COLON);
    if sep < 0 then None
    else match ParseDecimal(k[sep + 1..])
      case None => None
      case Some(h) => Some((k[..sep], h))
  }

  function InstallKeyScid(k: bytes): Option<bytes> {
    if |k| < 9 || k[8] != BAR then None else Some(k[9..])
  }

  function ParseInvocationKey(k: bytes): Option<(bytes, nat)> {
    var i1 := Index(k, COLON);
    if i1 < 0 then None
    else
      var rest := k[i1 + 1..];
      var i2 := Index(rest, COLON);
      if i2 < 0 then None
      else
        var hpart := rest[i2 + 1..];
        var i3 := Index(hpart, COLON);
        if i3 < 0 then None
        else match ParseDecimal(hpart[..i3])
          case None => None
          case Some(h) => Some((k[..i1], h))
  }

  function NormTxHeight(k: bytes): nat {
    var i1 := Index(k, COLON);
    if i1 < 0 || |k| < i1 + 1 + 8 then 0 else DecHeight(k[i1 + 1..i1 + 9])
  }

  function SplitNormTxKey(k: bytes): Option<(bytes, bytes, nat)> {
    var sep := Index(k, COLON);
    if sep < 0 || |k| <= sep + 9 || k[sep + 9] != COLON then None
    else
      var last := LastIndex(k, COLON);
      if last < sep + 10 || |k| - last - 1 != 64 then None
      else Some((k[..sep], k[last + 1..], DecHeight(k[sep + 1..sep + 9])))
  }

  function OwnerKeyScid(k: bytes): Option<bytes> {
    var i := LastIndex(k, BAR);
    if i < 0 then None else Some(k[i + 1..])
  }

  /** parseSCIDHeightKey: the batch's own install key, cut at the last '@'. */
  function SplitBatchInstallKey(k: bytes): Option<(bytes, nat)> {
    var at := LastIndex(k, AT);
    if at < 0 then None
    else match ParseDecimal(k[at + 1..])
      case None => None
      case Some(h) => Some((k[..at], h))
  }

  // ---------- Decoders invert builders ----------

  lemma HeightFits(h: nat)
    requires h <= MAX_HEIGHT
    ensures DecHeight(EncHeight(h)) == h && h + 1 < Pow256(8)
  {
    Pow256Eight();
    BigEndianRoundTrip(h, 8);
  }

  lemma HeightKeyRoundTrip(scid: bytes, h: nat)
    requires COLON !in scid && h <= MAX_HEIGHT
    ensures SplitHeightKey(HeightKey(scid, h)) == Some((scid, h))
  {
    HeightFits(h);
    FirstIndex(scid, COLON, EncHeight(h));
    assert HeightKey(scid, h)[..|scid|] == scid && HeightKey(scid, h)[|scid| + 1..] == EncHeight(h);
  }

  lemma ScVarsKeyRoundTrip(scid: bytes, h: nat)
    requires COLON !in scid
    ensures SplitScVarsKey(ScVarsKey(scid, h)) == Some((scid, h))
  {
    FirstIndex(scid, COLON, Decimal(h));
    DecimalRoundTrip(h);
    assert ScVarsKey(scid, h)[..|scid|] == scid && ScVarsKey(scid, h)[|scid| + 1..] == Decimal(h);
  }

  lemma InstallKeyRoundTrip(h: nat, scid: bytes)
    requires h <= MAX_HEIGHT
    ensures InstallKeyScid(InstallKey(h, scid)) == Some(scid)
    ensures DecHeight(InstallKey(h, scid)[..8]) == h
  {
    HeightFits(h);
    assert InstallKey(h, scid)[..8] == EncHeight(h) && InstallKey(h, scid)[9..] == scid;
  }

  lemma OwnerKeyRoundTrip(owner: bytes, scid: bytes)
    requires BAR !in scid
    ensures OwnerKeyScid(OwnerScidKey(owner, scid)) == Some(scid)
  {
    FinalIndex(owner, BAR, scid);
    assert OwnerScidKey(owner, scid)[|owner| + 1..] == scid;
  }

  lemma BatchInstallKeyRoundTrip(scid: bytes, h: nat)
    ensures SplitBatchInstallKey(BatchInstallKey(scid, h)) == Some((scid, h))
  {
    FinalIndex(scid, AT, Decimal(h));
    DecimalRoundTrip(h);
    assert BatchInstallKey(scid, h)[|scid| + 1..] == Decimal(h) && BatchInstallKey(scid, h)[..|scid|] == scid;
  }

  lemma InvocationKeyRoundTrip(sender: bytes, txid: bytes, h: nat, entrypoint: bytes)
    requires COLON !in sender && COLON !in txid
    ensures ParseInvocationKey(InvocationKey(sender, txid, h, entrypoint)) == Some((sender, h))
  {
    var k := InvocationKey(sender, txid, h, entrypoint);
    var hpart := Decimal(h) + [COLON] + entrypoint;
    var rest := txid + [COLON] + hpart;
    FirstIndex(sender, COLON, rest);
    assert k[..|sender|] == sender && k[|sender| + 1..] == rest;
    FirstIndex(txid, COLON, hpart);
    assert rest[|txid| + 1..] == hpart;
    FirstIndex(Decimal(h), COLON, entrypoint);
    assert hpart[..|Decimal(h)|] == Decimal(h);
    DecimalRoundTrip(h);
  }

  /** The scid is found from the right, since a ':' byte may occur inside the height. */
  lemma NormTxKeyRoundTrip(addr: bytes, h: nat, txid: bytes, scid: bytes)
    requires COLON !in addr && COLON !in scid && |scid| == 64 && h <= MAX_HEIGHT
    ensures SplitNormTxKey(NormTxKey(addr, h, txid, scid)) == Some((addr, scid, h))
    ensures NormTxHeight(NormTxKey(addr, h, txid, scid)) == h
  {
    var k := NormTxKey(addr, h, txid, scid);
    var head := addr + [COLON] + EncHeight(h) + [COLON] + txid;
    HeightFits(h);
    FirstIndex(addr, COLON, EncHeight(h) + [COLON] + txid + [COLON] + scid);
    assert k == head + [COLON] + scid;
    FinalIndex(head, COLON, scid);
    assert k[..|addr|] == addr && k[|addr| + 1..|addr| + 9] == EncHeight(h) && k[|head| + 1..] == scid;
    assert k[|addr| + 9] == COLON;
  }

  // ---------- Scans select what the decoded keys say ----------

  predicate HasPrefix(k: bytes, p: bytes) { |p| <= |k| && k[..|p|] == p }

  /** Seek(encHeight(h+1)) on a height-first bucket reaches exactly the keys above h. */
  lemma SeekSelectsAbove(h: nat, k: nat, tail: bytes)
    requires h <= MAX_HEIGHT && k <= MAX_HEIGHT
    ensures !Before(EncHeight(k) + tail, EncHeight(h + 1)) <==> k > h
  {
    HeightFits(h);
    HeightFits(k);
    BigEndianOrder(k, h + 1, 8);
    BeforePrefix(EncHeight(k), EncHeight(h + 1), tail, []);
    assert EncHeight(h + 1) + [] == EncHeight(h + 1);
    assert !Before(tail, []);
  }

  lemma PrefixIndex(k: bytes, p: bytes, c: byte)
    requires HasPrefix(k, p) && c in p
    ensures Index(k, c) == Index(p, c)
  {
    var i := Index(p, c);
    assert k == p[..i] + [c] + k[i + 1..];
    FirstIndex(p[..i], c, k[i + 1..]);
  }

  /** A scan of the prefix "<s><sep>" meets exactly the keys whose leading field is s. */
  lemma PrefixSelects(field: bytes, s: bytes, sep: byte, tail: bytes)
    requires sep !in field && sep !in s
    ensures HasPrefix(field + [sep] + tail, s + [sep]) <==> field == s
  {
    var k, p := field + [sep] + tail, s + [sep];
    FirstIndex(field, sep, tail);
    FirstIndex(s, sep, []);
    assert s + [sep] + [] == p && k[..|field|] == field && p[..|s|] == s;
    if HasPrefix(k, p) {
      PrefixIndex(k, p, sep);
      assert k[..|p|][..|s|] == k[..|s|];
    }
  }

  /** Interaction rows of s above h, by prefix scan and decoded height. */
  lemma HeightScan(scid: bytes, k: nat, s: bytes, h: nat)
    requires COLON !in scid && COLON !in s && k <= MAX_HEIGHT
    ensures HasPrefix(HeightKey(scid, k), s + [COLON]) &&
            (var d := SplitHeightKey(HeightKey(scid, k)); d.Some? && d.value.1 > h)
            <==> scid == s && k > h
  {
    PrefixSelects(scid, s, COLON, EncHeight(k));
    HeightKeyRoundTrip(scid, k);
  }

  /** Snapshot rows of s: the decimal suffix parses to the height (maxSurvivingScVarsHeight). */
  lemma ScVarsScan(scid: bytes, k: nat, s: bytes)
    requires COLON !in scid && COLON !in s
    ensures HasPrefix(ScVarsKey(scid, k), s + [COLON]) <==> scid == s
    ensures scid == s ==> ParseDecimal(ScVarsKey(scid, k)[|s + [COLON]|..]) == Some(k)
  {
    PrefixSelects(scid, s, COLON, Decimal(k));
    DecimalRoundTrip(k);
    assert ScVarsKey(scid, k)[|scid| + 1..] == Decimal(k);
  }

  /** A class scan meets exactly the rows of that class, and reads their height and scid. */
  lemma ClassScan(className: bytes, k: nat, scid: bytes, wanted: bytes)
    requires BAR !in className && BAR !in wanted && k <= MAX_HEIGHT
    ensures HasPrefix(ClassRowKey(className, k, scid), wanted + [BAR]) <==> className == wanted
    ensures var rem := ClassRowKey(className, k, scid)[|className| + 1..];
            |rem| >= 9 && DecHeight(rem[..8]) == k && rem[9..] == scid
  {
    PrefixSelects(className, wanted, BAR, InstallKey(k, scid));
    InstallKeyRoundTrip(k, scid);
    assert ClassRowKey(className, k, scid)[|className| + 1..] == InstallKey(k, scid);
  }

  // ---------- Distinct rows have distinct keys ----------

  lemma HeightKeysDistinct(s1: bytes, h1: nat, s2: bytes, h2: nat)
    requires COLON !in s1 && COLON !in s2 && h1 <= MAX_HEIGHT && h2 <= MAX_HEIGHT
    ensures HeightKey(s1, h1) == HeightKey(s2, h2) ==> s1 == s2 && h1 == h2
    ensures ScVarsKey(s1, h1) == ScVarsKey(s2, h2) ==> s1 == s2 && h1 == h2
    ensures InstallKey(h1, s1) == InstallKey(h2, s2) ==> s1 == s2 && h1 == h2
  {
    HeightKeyRoundTrip(s1, h1);
    HeightKeyRoundTrip(s2, h2);
    ScVarsKeyRoundTrip(s1, h1);
    ScVarsKeyRoundTrip(s2, h2);
    InstallKeyRoundTrip(h1, s1);
    InstallKeyRoundTrip(h2, s2);
  }

  /** Cutting at the first separator recovers both sides. */
  lemma CutUnique(a: bytes, b: bytes, c: byte, x: bytes, y: bytes)
    requires c !in a && c !in b && a + [c] + x == b + [c] + y
    ensures a == b && x == y
  {
    var k := a + [c] + x;
    FirstIndex(a, c, x);
    FirstIndex(b, c, y);
    assert k[..|a|] == a && k[|a| + 1..] == x && (b + [c] + y)[..|b|] == b && (b + [c] + y)[|b| + 1..] == y;
  }

  lemma ClassKeysDistinct(c1: bytes, h1: nat, s1: bytes, c2: bytes, h2: nat, s2: bytes)
    requires BAR !in c1 && BAR !in c2 && h1 <= MAX_HEIGHT && h2 <= MAX_HEIGHT
    requires ClassRowKey(c1, h1, s1) == ClassRowKey(c2, h2, s2)
    ensures c1 == c2 && h1 == h2 && s1 == s2
  {
    CutUnique(c1, c2, BAR, InstallKey(h1, s1), InstallKey(h2, s2));
    InstallKeyRoundTrip(h1, s1);
    InstallKeyRoundTrip(h2, s2);
  }

  lemma OwnerKeysDistinct(o1: bytes, s1: bytes, o2: bytes, s2: bytes)
    requires BAR !in s1 && BAR !in s2 && OwnerScidKey(o1, s1) == OwnerScidKey(o2, s2)
    ensures o1 == o2 && s1 == s2
  {
    OwnerKeyRoundTrip(o1, s1);
    OwnerKeyRoundTrip(o2, s2);
    assert OwnerScidKey(o1, s1)[..|o1|] == o1 && OwnerScidKey(o2, s2)[..|o2|] == o2;
  }

  lemma TelaKeysDistinct(s1: bytes, p1: bytes, s2: bytes, p2: bytes)
    requires BAR !in s1 && BAR !in s2 && TelaContentKey(s1, p1) == TelaContentKey(s2, p2)
    ensures s1 == s2 && p1 == p2
  {
    CutUnique(s1, s2, BAR, p1, p2);
  }

  lemma NormTxKeysDistinct(a1: bytes, h1: nat, t1: bytes, s1: bytes, a2: bytes, h2: nat, t2: bytes, s2: bytes)
    requires COLON !in a1 && COLON !in a2 && COLON !in t1 && COLON !in t2
    requires h1 <= MAX_HEIGHT && h2 <= MAX_HEIGHT
    requires NormTxKey(a1, h1, t1, s1) == NormTxKey(a2, h2, t2, s2)
    ensures a1 == a2 && h1 == h2 && t1 == t2 && s1 == s2
  {
    var x, y := EncHeight(h1) + [COLON] + t1 + [COLON] + s1, EncHeight(h2) + [COLON] + t2 + [COLON] + s2;
    CutUnique(a1, a2, COLON, x, y);
    HeightFits(h1);
    HeightFits(h2);
    assert x[..8] == EncHeight(h1) && y[..8] == EncHeight(h2);
    assert x[9..] == t1 + [COLON] + s1 && y[9..] == t2 + [COLON] + s2;
    CutUnique(t1, t2, COLON, s1, s2);
  }

  lemma InvocationKeysDistinct(a1: bytes, t1: bytes, h1: nat, e1: bytes, a2: bytes, t2: bytes, h2: nat, e2: bytes)
    requires COLON !in a1 && COLON !in a2 && COLON !in t1 && COLON !in t2
    requires InvocationKey(a1, t1, h1, e1) == InvocationKey(a2, t2, h2, e2)
    ensures a1 == a2 && t1 == t2 && h1 == h2 && e1 == e2
  {
    var p1, p2 := Decimal(h1) + [COLON] + e1, Decimal(h2) + [COLON] + e2;
    CutUnique(a1, a2, COLON, t1 + [COLON] + p1, t2 + [COLON] + p2);
    CutUnique(t1, t2, COLON, p1, p2);
    CutUnique(Decimal(h1), Decimal(h2), COLON, e1, e2);
    DecimalRoundTrip(h1);
    DecimalRoundTrip(h2);
  }
}
