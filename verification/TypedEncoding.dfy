/**
 The typed wire records of structures/typed_encoding.go: a tag, fixed-width integers and
 uvarint-length-prefixed strings, decoded in two passes whose strings are cut out of one
 shared buffer.
 */
module TypedEncoding {
  import opened Bytes
  import opened IndexTypes

  const MAX_U64 := 0x1_0000_0000_0000_0000

  /** int64Bits and int64FromBits: two's complement. */
  function Int64Bits(n: int): (u: int) {
    if n < 0 then n + MAX_U64 else n
  }

  function Int64FromBits(u: int): (n: int) {
    if u >= MAX_U64 / 2 then u - MAX_U64 else u
  }

  predicate IsInt64(n: int) { -(MAX_U64 / 2) <= n < MAX_U64 / 2 }

  // ---------- Length-prefixed strings ----------

  function LenString(s: bytes): bytes { Uvarint(|s|) + s }

  function LenStrings(ss: seq<bytes>): bytes {
    if ss == [] then [] else LenString(ss[0]) + LenStrings(ss[1..])
  }

  datatype Loc = Bad | Range(start: nat, end: nat)

  /** locLenString: the extent of the string at pos; the next field starts at its end. */
  function LocLenString(b: bytes, pos: nat): (l: Loc)
    ensures l.Range? ==> pos < l.start <= l.end <= |b|
  {
    if pos >= |b| then Bad
    else
      var r := ReadUvarint(b[pos..]);
      if r.size == 0 then Bad
      else
        var p := pos + r.size;
        if |b| - p < r.value then Bad else Range(p, p + r.value)
  }

  datatype Strings = Strings(texts: seq<bytes>, next: nat)

  /** n length-prefixed strings from pos on. */
  function ReadStrings(b: bytes, pos: nat, n: nat): (r: Option<Strings>)
    ensures r.Some? ==> |r.value.texts| == n && pos + n <= r.value.next && (pos <= |b| ==> r.value.next <= |b|)
    decreases n
  {
    if n == 0 then Some(Strings([], pos))
    else
      match LocLenString(b, pos)
      case Bad => None
      case Range(start, end) =>
        match ReadStrings(b, end, n - 1)
        case None => None
        case Some(rest) => Some(Strings([b[start..end]] + rest.texts, rest.next))
  }

  predicate Short(ss: seq<bytes>) { forall i | 0 <= i < |ss| :: |ss[i]| < MAX_U64 }

  /** x stands in b at pos. */
  predicate Holds(b: bytes, pos: nat, x: bytes) { pos + |x| <= |b| && b[pos..pos + |x|] == x }

  lemma HoldsParts(b: bytes, pos: nat, x: bytes, y: bytes)
    requires Holds(b, pos, x + y)
    ensures Holds(b, pos, x) && Holds(b, pos + |x|, y)
  {
    assert b[pos..pos + |x|] == b[pos..pos + |x + y|][..|x|];
    assert b[pos + |x|..pos + |x| + |y|] == b[pos..pos + |x + y|][|x|..];
  }

  lemma LocOfString(b: bytes, pos: nat, s: bytes)
    requires |s| < MAX_U64 && Holds(b, pos, LenString(s))
    ensures LocLenString(b, pos) == Range(pos + |Uvarint(|s|)|, pos + |LenString(s)|)
    ensures b[pos + |Uvarint(|s|)|..pos + |LenString(s)|] == s
  {
    var size := Uvarint(|s|);
    HoldsParts(b, pos, size, s);
    assert b[pos..] == size + b[pos + |size|..];
    UvarintRoundTrip(|s|, b[pos + |size|..]);
  }

  lemma HeadString(b: bytes, pos: nat, ss: seq<bytes>)
    requires ss != [] && Holds(b, pos, LenStrings(ss))
    ensures Holds(b, pos, LenString(ss[0])) && Holds(b, pos + |LenString(ss[0])|, LenStrings(ss[1..]))
    ensures |LenStrings(ss)| == |LenString(ss[0])| + |LenStrings(ss[1..])|
  {
    HoldsParts(b, pos, LenString(ss[0]), LenStrings(ss[1..]));
  }

  lemma ReadCons(b: bytes, pos: nat, ss: seq<bytes>, next: nat)
    requires ss != [] && LocLenString(b, pos).Range?
    requires b[LocLenString(b, pos).start..LocLenString(b, pos).end] == ss[0]
    requires ReadStrings(b, LocLenString(b, pos).end, |ss| - 1) == Some(Strings(ss[1..], next))
    ensures ReadStrings(b, pos, |ss|) == Some(Strings(ss, next))
  {
    hide LocLenString;
    assert ss == [ss[0]] + ss[1..];
  }

  lemma ShortTail(ss: seq<bytes>)
    requires ss != [] && Short(ss)
    ensures |ss[0]| < MAX_U64 && Short(ss[1..])
  {
  }

  lemma ReadsNothing(b: bytes, pos: nat)
    ensures ReadStrings(b, pos, 0) == Some(Strings([], pos)) && LenStrings([]) == []
  {
  }

  lemma {:induction false} StringsRoundTrip(b: bytes, pos: nat, ss: seq<bytes>)
    requires Short(ss) && Holds(b, pos, LenStrings(ss))
    ensures ReadStrings(b, pos, |ss|) == Some(Strings(ss, pos + |LenStrings(ss)|))
    decreases |ss|
  {
    hide *;
    if ss == [] {
      ReadsNothing(b, pos);
    } else {
      ShortTail(ss);
      HeadString(b, pos, ss);
      LocOfString(b, pos, ss[0]);
      var next := pos + |LenString(ss[0])|;
      StringsRoundTrip(b, next, ss[1..]);
      ReadCons(b, pos, ss, next + |LenStrings(ss[1..])|);
    }
  }

  /** A read that succeeds within the first c bytes only needed those. */
  lemma {:induction false} ReadPrefix(b: bytes, i: nat, c: nat)
    requires 0 < ReadFrom(b, i).size <= c <= |b|
    ensures ReadFrom(b[..c], i) == ReadFrom(b, i)
    decreases |b|
  {
    if b[0] >= 128 {
      assert b[..c][1..] == b[1..][..c - 1];
      ReadPrefix(b[1..], i + 1, c - 1);
    }
  }

  /** Cutting the input after a string keeps it; cutting it earlier makes it unreadable. */
  lemma LocOfCut(b: bytes, pos: nat, cut: nat)
    requires LocLenString(b, pos).Range? && pos <= cut <= |b|
    ensures LocLenString(b[..cut], pos) == if LocLenString(b, pos).end <= cut then LocLenString(b, pos) else Bad
  {
    var short, r := b[..cut], ReadUvarint(b[pos..]);
    if pos < cut {
      assert short[pos..] == b[pos..][..cut - pos];
      if pos + r.size <= cut {
        ReadPrefix(b[pos..], 0, cut - pos);
      } else if ReadUvarint(short[pos..]).size > 0 {
        assert short[pos..] + b[cut..] == b[pos..];
        ReadStable(short[pos..], 0, b[cut..]);
      }
    }
  }

  lemma {:induction false} CutInside(b: bytes, pos: nat, n: nat, cut: nat)
    requires ReadStrings(b, pos, n).Some? && pos <= cut < ReadStrings(b, pos, n).value.next && cut <= |b|
    ensures ReadStrings(b[..cut], pos, n) == None
    decreases n
  {
    if n > 0 {
      LocOfCut(b, pos, cut);
      var end := LocLenString(b, pos).end;
      if end <= cut {
        CutInside(b, end, n - 1, cut);
      }
    }
  }

  lemma {:induction false} CutAfter(b: bytes, pos: nat, n: nat, cut: nat)
    requires ReadStrings(b, pos, n).Some? && ReadStrings(b, pos, n).value.next <= cut <= |b|
    ensures ReadStrings(b[..cut], pos, n) == ReadStrings(b, pos, n)
    decreases n
  {
    if n > 0 {
      LocOfCut(b, pos, cut);
      var start, end := LocLenString(b, pos).start, LocLenString(b, pos).end;
      assert b[..cut][start..end] == b[start..end];
      CutAfter(b, end, n - 1, cut);
    }
  }

  // ---------- ClassMeta records ----------

  const TAG_CLASS_META := 4
  const CLASS_META_HEADER := 17
  const FIXED_FIELDS := 6
  const MEDIA_FIELDS := 5
  const NO_MEDIA: seq<bytes> := [[], [], [], [], []]

  /** `fixed` is class, name, description, icon, dURL, version; `media` is image, alt, audio, video, images. */
  datatype Meta = Meta(installHeight: int, lastHeight: int, tags: seq<bytes>, fixed: seq<bytes>, media: seq<bytes>)

  predicate ValidMeta(m: Meta) {
    && IsInt64(m.installHeight) && IsInt64(m.lastHeight) && |m.tags| < MAX_U64
    && |m.fixed| == FIXED_FIELDS && |m.media| == MEDIA_FIELDS && Short(m.tags) && Short(m.fixed) && Short(m.media)
  }

  predicate HasMedia(m: Meta) { exists i | 0 <= i < |m.media| :: m.media[i] != [] }

  function Height64(n: int): (h: bytes)
    requires IsInt64(n)
    ensures |h| == 8
  {
    BigEndian(Int64Bits(n), 8)
  }

  /** The record as the encoder before the media tail wrote it. */
  function EncodeFixed(m: Meta): bytes
    requires ValidMeta(m)
  {
    [TAG_CLASS_META] + Height64(m.installHeight) + Height64(m.lastHeight) +
    Uvarint(|m.tags|) + LenStrings(m.tags) + LenStrings(m.fixed)
  }

  function EncodeMeta(m: Meta): bytes
    requires ValidMeta(m)
  {
    EncodeFixed(m) + (if HasMedia(m) then LenStrings(m.media) else [])
  }

  /** What both readers share: heights, tags and the six fixed fields. */
  datatype Head = Head(installHeight: int, lastHeight: int, tags: seq<bytes>, fixed: seq<bytes>, next: nat)

  function DecodeHead(b: bytes): (h: Option<Head>)
    ensures h.Some? ==> h.value.next <= |b| && |h.value.fixed| == FIXED_FIELDS
  {
    if |b| < CLASS_META_HEADER || b[0] != TAG_CLASS_META then None
    else
      var count := ReadUvarint(b[17..]);
      if count.size == 0 then None
      else
        match ReadStrings(b, 17 + count.size, count.value)
        case None => None
        case Some(tags) =>
          match ReadStrings(b, tags.next, FIXED_FIELDS)
          case None => None
          case Some(fixed) =>
            Some(Head(Int64FromBits(FromBigEndian(b[1..9])), Int64FromBits(FromBigEndian(b[9..17])),
                      tags.texts, fixed.texts, fixed.next))
  }

  /** The reader before the media tail: trailing bytes are ignored. */
  function DecodeFixed(b: bytes): Option<Meta> {
    match DecodeHead(b)
    case None => None
    case Some(h) => Some(Meta(h.installHeight, h.lastHeight, h.tags, h.fixed, NO_MEDIA))
  }

  /** The current reader: an unreadable tail counts as absent. */
  function DecodeMeta(b: bytes): Option<Meta> {
    match DecodeHead(b)
    case None => None
    case Some(h) =>
      var media := match ReadStrings(b, h.next, MEDIA_FIELDS) case Some(r) => r.texts case None => NO_MEDIA;
      Some(Meta(h.installHeight, h.lastHeight, h.tags, h.fixed, media))
  }

  lemma HeightRoundTrip(n: int)
    requires IsInt64(n)
    ensures Int64FromBits(FromBigEndian(Height64(n))) == n
  {
    Pow256Eight();
    BigEndianRoundTrip(Int64Bits(n), 8);
  }

  lemma HeadBytes(m: Meta, b: bytes)
    requires ValidMeta(m) && Holds(b, 0, EncodeFixed(m))
    ensures |b| >= CLASS_META_HEADER && b[0] == TAG_CLASS_META
    ensures b[1..9] == Height64(m.installHeight) && b[9..17] == Height64(m.lastHeight)
    ensures var at := 17 + |Uvarint(|m.tags|)|;
            && Holds(b, 17, Uvarint(|m.tags|)) && Holds(b, at, LenStrings(m.tags))
            && Holds(b, at + |LenStrings(m.tags)|, LenStrings(m.fixed))
            && |EncodeFixed(m)| == at + |LenStrings(m.tags)| + |LenStrings(m.fixed)|
  {
    var h1, h2, count := Height64(m.installHeight), Height64(m.lastHeight), Uvarint(|m.tags|);
    var tags, fixed := LenStrings(m.tags), LenStrings(m.fixed);
    HoldsParts(b, 0, [TAG_CLASS_META] + h1 + h2 + count + tags, fixed);
    HoldsParts(b, 0, [TAG_CLASS_META] + h1 + h2 + count, tags);
    HoldsParts(b, 0, [TAG_CLASS_META] + h1 + h2, count);
    HoldsParts(b, 0, [TAG_CLASS_META] + h1, h2);
    HoldsParts(b, 0, [TAG_CLASS_META], h1);
  }

  lemma UvarintAt(b: bytes, pos: nat, v: nat)
    requires v < MAX_U64 && Holds(b, pos, Uvarint(v))
    ensures ReadUvarint(b[pos..]) == Read(v, |Uvarint(v)|)
  {
    assert b[pos..] == Uvarint(v) + b[pos + |Uvarint(v)|..];
    UvarintRoundTrip(v, b[pos + |Uvarint(v)|..]);
  }

  /** The fixed part is read back whatever follows it. */
  lemma HeadRoundTrip(m: Meta, b: bytes)
    requires ValidMeta(m) && Holds(b, 0, EncodeFixed(m))
    ensures DecodeHead(b) == Some(Head(m.installHeight, m.lastHeight, m.tags, m.fixed, |EncodeFixed(m)|))
  {
    hide EncodeFixed, LenStrings, Height64, Holds, Uvarint, ReadStrings, ReadUvarint, FromBigEndian, Int64FromBits;
    hide Short;
    HeadBytes(m, b);
    var count := Uvarint(|m.tags|);
    UvarintAt(b, 17, |m.tags|);
    HeightRoundTrip(m.installHeight);
    HeightRoundTrip(m.lastHeight);
    StringsRoundTrip(b, 17 + |count|, m.tags);
    StringsRoundTrip(b, 17 + |count| + |LenStrings(m.tags)|, m.fixed);
  }

  lemma EncodedParts(m: Meta)
    requires ValidMeta(m)
    ensures Holds(EncodeMeta(m), 0, EncodeFixed(m)) && Holds(EncodeFixed(m), 0, EncodeFixed(m))
    ensures HasMedia(m) ==> Holds(EncodeMeta(m), |EncodeFixed(m)|, LenStrings(m.media)) &&
                            |EncodeMeta(m)| == |EncodeFixed(m)| + |LenStrings(m.media)|
    ensures !HasMedia(m) ==> EncodeMeta(m) == EncodeFixed(m)
  {
    hide EncodeFixed, LenStrings;
  }

  lemma NoMediaIsEmpty(m: Meta)
    requires ValidMeta(m) && !HasMedia(m)
    ensures m.media == NO_MEDIA
  {
    assert forall i | 0 <= i < MEDIA_FIELDS :: m.media[i] == NO_MEDIA[i];
  }

  /** Decode after encode is the identity. */
  lemma MetaRoundTrip(m: Meta)
    requires ValidMeta(m)
    ensures DecodeMeta(EncodeMeta(m)) == Some(m)
  {
    EncodedParts(m);
    HeadRoundTrip(m, EncodeMeta(m));
    hide EncodeFixed, LenStrings, EncodeMeta, DecodeHead, Holds;
    if HasMedia(m) {
      StringsRoundTrip(EncodeMeta(m), |EncodeFixed(m)|, m.media);
    } else {
      NoMediaIsEmpty(m);
      NothingThere(EncodeMeta(m), |EncodeFixed(m)|);
    }
  }

  lemma NothingThere(b: bytes, pos: nat)
    requires pos >= |b|
    ensures ReadStrings(b, pos, MEDIA_FIELDS) == None
  {
  }

  /** The older reader recovers the fixed fields of any record, and the newer one reads older records. */
  lemma ReadersAreCompatible(m: Meta)
    requires ValidMeta(m)
    ensures DecodeFixed(EncodeMeta(m)) == Some(m.(media := NO_MEDIA))
    ensures DecodeMeta(EncodeFixed(m)) == Some(m.(media := NO_MEDIA))
    ensures !HasMedia(m) ==> EncodeMeta(m) == EncodeFixed(m)
  {
    EncodedParts(m);
    HeadRoundTrip(m, EncodeMeta(m));
    HeadRoundTrip(m, EncodeFixed(m));
    NothingThere(EncodeFixed(m), |EncodeFixed(m)|);
    hide EncodeFixed, LenStrings, EncodeMeta, DecodeHead, Holds;
  }

  /** A media record cut anywhere in its tail decodes to the same fixed fields and no media. */
  lemma CutTailIsAbsent(m: Meta, cut: nat)
    requires ValidMeta(m) && |EncodeFixed(m)| <= cut < |EncodeMeta(m)|
    ensures DecodeMeta(EncodeMeta(m)[..cut]) == Some(m.(media := NO_MEDIA))
  {
    var b, head := EncodeMeta(m), EncodeFixed(m);
    EncodedParts(m);
    assert Holds(b[..cut], 0, head) by { hide EncodeMeta, EncodeFixed; assert b[..cut][0..|head|] == b[0..|head|]; }
    HeadRoundTrip(m, b[..cut]);
    hide EncodeFixed, LenStrings, EncodeMeta, DecodeHead, Holds, ReadStrings;
    StringsRoundTrip(b, |head|, m.media);
    CutInside(b, |head|, MEDIA_FIELDS, cut);
  }

  // ---------- The shared string buffer ----------

  /** A string that views `len` bytes of the decoder's buffer from `off` on. */
  datatype Slice = Slice(off: nat, len: nat)

  ghost predicate Within(cuts: seq<Slice>, bound: nat) {
    forall i | 0 <= i < |cuts| :: cuts[i].off + cuts[i].len <= bound
  }

  /** The strings the views stand for. */
  ghost function Resolve(buf: bytes, cuts: seq<Slice>): (texts: seq<bytes>)
    requires Within(cuts, |buf|)
    ensures |texts| == |cuts|
  {
    seq(|cuts|, i requires 0 <= i < |cuts| => buf[cuts[i].off..cuts[i].off + cuts[i].len])
  }

  function TotalLen(texts: seq<bytes>): nat {
    if texts == [] then 0 else TotalLen(texts[..|texts| - 1]) + |texts[|texts| - 1]|
  }

  /** The views lie one after another from `off` on, without gap or overlap. */
  ghost predicate Packed(cuts: seq<Slice>, off: nat, end: nat) {
    if cuts == [] then off == end
    else
      var c := cuts[|cuts| - 1];
      c.off + c.len == end && Packed(cuts[..|cuts| - 1], off, c.off)
  }

  /** ownedCut: copies b[start..end] to the buffer at off and returns a view of it. */
  method OwnedCut(sbuf: array<byte>, off: nat, b: bytes, start: nat, end: nat) returns (cut: Slice, off': nat)
    requires start <= end <= |b| && off + (end - start) <= sbuf.Length
    modifies sbuf
    ensures cut == Slice(off, end - start) && off' == off + (end - start)
    ensures sbuf[off..off'] == b[start..end]
    ensures sbuf[..off] == old(sbuf[..off]) && sbuf[off'..] == old(sbuf[off'..])
  {
    var n := end - start;
    if n == 0 {
      return Slice(off, 0), off;
    }
    var i := 0;
    while i < n
      invariant i <= n
      invariant sbuf[off..off + i] == b[start..start + i]
      invariant sbuf[..off] == old(sbuf[..off]) && sbuf[off + n..] == old(sbuf[off + n..])
    {
      sbuf[off + i] := b[start + i];
      assert sbuf[off..off + i + 1] == sbuf[off..off + i] + [sbuf[off + i]];
      assert b[start..start + i + 1] == b[start..start + i] + [b[start + i]];
      i := i + 1;
    }
    return Slice(off, n), off + n;
  }

  lemma ResolveKept(before: bytes, after: bytes, cuts: seq<Slice>, bound: nat)
    requires |before| == |after| && bound <= |before| && before[..bound] == after[..bound] && Within(cuts, bound)
    ensures Resolve(before, cuts) == Resolve(after, cuts)
  {
    forall i | 0 <= i < |cuts| ensures Resolve(before, cuts)[i] == Resolve(after, cuts)[i] {
      var c := cuts[i];
      assert before[c.off..c.off + c.len] == before[..bound][c.off..c.off + c.len];
      assert after[c.off..c.off + c.len] == after[..bound][c.off..c.off + c.len];
    }
  }

  lemma ResolveMore(buf: bytes, cuts: seq<Slice>, c: Slice)
    requires Within(cuts, |buf|) && c.off + c.len <= |buf|
    ensures Within(cuts + [c], |buf|) && Resolve(buf, cuts + [c]) == Resolve(buf, cuts) + [buf[c.off..c.off + c.len]]
  {
  }

  lemma TotalMore(texts: seq<bytes>, t: bytes)
    ensures TotalLen(texts + [t]) == TotalLen(texts) + |t|
  {
    assert (texts + [t])[..|texts|] == texts;
  }

  lemma {:induction false} TotalCat(x: seq<bytes>, y: seq<bytes>)
    ensures TotalLen(x + y) == TotalLen(x) + TotalLen(y)
  {
    if y == [] {
      assert x + y == x;
    } else {
      TotalCat(x, y[..|y| - 1]);
      assert x + y == (x + y[..|y| - 1]) + [y[|y| - 1]];
      TotalMore(x + y[..|y| - 1], y[|y| - 1]);
    }
  }

  lemma PackedMore(cuts: seq<Slice>, off: nat, end: nat, len: nat)
    requires Packed(cuts, off, end)
    ensures Packed(cuts + [Slice(end, len)], off, end + len)
  {
    assert (cuts + [Slice(end, len)])[..|cuts|] == cuts;
  }

  /** n more strings at p complete the strings already read to what a read from pos gives. */
  ghost predicate Continues(b: bytes, pos: nat, n: nat, done: seq<bytes>, p: nat, left: nat) {
    ReadStrings(b, pos, n) ==
    match ReadStrings(b, p, left) case None => None case Some(r) => Some(Strings(done + r.texts, r.next))
  }

  lemma ContinuesStart(b: bytes, pos: nat, n: nat)
    ensures Continues(b, pos, n, [], pos, n)
  {
    if ReadStrings(b, pos, n).Some? {
      assert [] + ReadStrings(b, pos, n).value.texts == ReadStrings(b, pos, n).value.texts;
    }
  }

  lemma ContinuesStep(b: bytes, pos: nat, n: nat, done: seq<bytes>, p: nat, left: nat)
    requires Continues(b, pos, n, done, p, left) && left >= 1
    ensures LocLenString(b, p).Bad? ==> ReadStrings(b, pos, n) == None
    ensures var l := LocLenString(b, p);
            l.Range? ==> Continues(b, pos, n, done + [b[l.start..l.end]], l.end, left - 1)
  {
    hide LocLenString;
    var l := LocLenString(b, p);
    if l.Range? && ReadStrings(b, l.end, left - 1).Some? {
      var t, rest := b[l.start..l.end], ReadStrings(b, l.end, left - 1).value.texts;
      assert done + ([t] + rest) == (done + [t]) + rest;
    }
  }

  lemma ContinuesEnd(b: bytes, pos: nat, n: nat, done: seq<bytes>, p: nat)
    requires Continues(b, pos, n, done, p, 0)
    ensures ReadStrings(b, pos, n) == Some(Strings(done, p))
  {
    assert done + [] == done;
  }

  /** Pass 1: checks n strings and sums their lengths. */
  method SumStrings(b: bytes, pos: nat, n: nat) returns (ok: bool, total: nat, next: nat)
    ensures ok == ReadStrings(b, pos, n).Some?
    ensures ok ==> next == ReadStrings(b, pos, n).value.next && total == TotalLen(ReadStrings(b, pos, n).value.texts)
  {
    total, next := 0, pos;
    var i := 0;
    ghost var done: seq<bytes> := [];
    ContinuesStart(b, pos, n);
    while i < n
      invariant i <= n && Continues(b, pos, n, done, next, n - i) && total == TotalLen(done)
    {
      hide Continues, ReadStrings, LocLenString;
      ContinuesStep(b, pos, n, done, next, n - i);
      var l := LocLenString(b, next);
      if l.Bad? {
        return false, 0, 0;
      }
      TotalMore(done, b[l.start..l.end]);
      total, done, next := total + (l.end - l.start), done + [b[l.start..l.end]], l.end;
      i := i + 1;
    }
    ContinuesEnd(b, pos, n, done, next);
    ok := true;
  }

  /** Pass 2: cuts the same n strings into the buffer from off on. */
  method CutStrings(b: bytes, pos: nat, n: nat, sbuf: array<byte>, off: nat)
      returns (cuts: seq<Slice>, next: nat, off': nat)
    requires ReadStrings(b, pos, n).Some?
    requires off + TotalLen(ReadStrings(b, pos, n).value.texts) <= sbuf.Length
    modifies sbuf
    ensures next == ReadStrings(b, pos, n).value.next
    ensures off' == off + TotalLen(ReadStrings(b, pos, n).value.texts) && off' <= sbuf.Length
    ensures Within(cuts, off') && Resolve(sbuf[..], cuts) == ReadStrings(b, pos, n).value.texts
    ensures sbuf[..off] == old(sbuf[..off]) && Packed(cuts, off, off')
  {
    ghost var texts := ReadStrings(b, pos, n).value.texts;
    cuts, next, off' := [], pos, off;
    var i := 0;
    ghost var done: seq<bytes> := [];
    ContinuesStart(b, pos, n);
    while i < n
      invariant i <= n && Continues(b, pos, n, done, next, n - i)
      invariant off' == off + TotalLen(done) && off' <= sbuf.Length
      invariant Within(cuts, off') && Resolve(sbuf[..], cuts) == done
      invariant sbuf[..off] == old(sbuf[..off]) && Packed(cuts, off, off')
    {
      hide Continues, ReadStrings, LocLenString, Resolve, Packed;
      ContinuesStep(b, pos, n, done, next, n - i);
      var l := LocLenString(b, next);
      assert l.Range?;
      ghost var t := b[l.start..l.end];
      TotalMore(done, t);
      RoomForNext(b, pos, n, done + [t], l.end, n - i - 1);
      ghost var before := sbuf[..];
      var cut, end := OwnedCut(sbuf, off', b, l.start, l.end);
      CutKept(before, sbuf[..], cuts, cut, off, off', end, t);
      cuts, next, off' := cuts + [cut], l.end, end;
      done := done + [t];
      i := i + 1;
    }
    ContinuesEnd(b, pos, n, done, next);
  }

  /** The strings read so far are a prefix of all of them, so they fit in the buffer. */
  lemma RoomForNext(b: bytes, pos: nat, n: nat, done: seq<bytes>, p: nat, left: nat)
    requires ReadStrings(b, pos, n).Some? && Continues(b, pos, n, done, p, left)
    ensures TotalLen(done) <= TotalLen(ReadStrings(b, pos, n).value.texts)
  {
    hide ReadStrings;
    TotalCat(done, ReadStrings(b, p, left).value.texts);
  }

  /** One more cut behind the others leaves their strings alone. */
  lemma CutKept(before: bytes, after: bytes, cuts: seq<Slice>, cut: Slice, lo: nat, off: nat, end: nat, t: bytes)
    requires |before| == |after| && lo <= off <= end <= |before| && cut == Slice(off, end - off)
    requires after[..off] == before[..off] && after[off..end] == t
    requires Within(cuts, off) && Packed(cuts, lo, off)
    ensures Within(cuts + [cut], end) && Resolve(after, cuts + [cut]) == Resolve(before, cuts) + [t]
    ensures Packed(cuts + [cut], lo, end) && after[..lo] == before[..lo]
  {
    ResolveKept(before, after, cuts, off);
    ResolveMore(after, cuts, cut);
    PackedMore(cuts, lo, off, end - off);
    assert after[..lo] == after[..off][..lo] && before[..lo] == before[..off][..lo];
    hide Resolve, Packed;
  }

  // ---------- The ClassMeta methods ----------

  /** uvarintLen: counts without encoding. */
  method UvarintLen(u: nat) returns (n: nat)
    ensures n == |Uvarint(u)|
  {
    n := 1;
    var rest := u;
    while rest >= 0x80
      invariant n + |Uvarint(rest)| == 1 + |Uvarint(u)|
    {
      rest := rest / 128;
      n := n + 1;
    }
  }

  lemma LenStringsMore(ss: seq<bytes>, s: bytes)
    ensures LenStrings(ss + [s]) == LenStrings(ss) + LenString(s)
    decreases |ss|
  {
    if ss == [] {
      assert [s][1..] == [];
    } else {
      LenStringsMore(ss[1..], s);
      assert (ss + [s])[1..] == ss[1..] + [s];
    }
  }

  method SizeStrings(ss: seq<bytes>) returns (size: nat)
    ensures size == |LenStrings(ss)|
  {
    size := 0;
    var i := 0;
    while i < |ss|
      invariant i <= |ss| && size == |LenStrings(ss[..i])|
    {
      var n := UvarintLen(|ss[i]|);
      LenStringsMore(ss[..i], ss[i]);
      assert ss[..i + 1] == ss[..i] + [ss[i]];
      size := size + n + |ss[i]|;
      i := i + 1;
    }
    assert ss[..i] == ss;
  }

  method AppendStrings(dst: bytes, ss: seq<bytes>) returns (out: bytes)
    ensures out == dst + LenStrings(ss)
  {
    out := dst;
    var i := 0;
    while i < |ss|
      invariant i <= |ss| && out == dst + LenStrings(ss[..i])
    {
      LenStringsMore(ss[..i], ss[i]);
      assert ss[..i + 1] == ss[..i] + [ss[i]];
      out := out + Uvarint(|ss[i]|) + ss[i];
      i := i + 1;
    }
    assert ss[..i] == ss;
  }

  class ClassMeta {
    var installHeight: int
    var lastHeight: int
    var tags: seq<bytes>
    var class_: bytes
    var name: bytes
    var desc: bytes
    var iconUrl: bytes
    var dUrl: bytes
    var version: bytes
    var image: bytes
    var altImage: bytes
    var audio: bytes
    var video: bytes
    var imagesJson: bytes

    function View(): Meta
      reads this
    {
      Meta(installHeight, lastHeight, tags, [class_, name, desc, iconUrl, dUrl, version],
           [image, altImage, audio, video, imagesJson])
    }

    constructor (m: Meta)
      requires |m.fixed| == FIXED_FIELDS && |m.media| == MEDIA_FIELDS
      ensures View() == m
    {
      installHeight, lastHeight, tags := m.installHeight, m.lastHeight, m.tags;
      class_, name, desc, iconUrl, dUrl, version := m.fixed[0], m.fixed[1], m.fixed[2], m.fixed[3], m.fixed[4],
          m.fixed[5];
      image, altImage, audio, video, imagesJson := m.media[0], m.media[1], m.media[2], m.media[3], m.media[4];
    }

    method HasMediaTail() returns (has: bool)
      ensures has == HasMedia(View())
      ensures has == ([image, altImage, audio, video, imagesJson] != [[], [], [], [], []])
    {
      has := image != [] || altImage != [] || audio != [] || video != [] || imagesJson != [];
      assert View().media[0] == image && View().media[1] == altImage && View().media[2] == audio;
      assert View().media[3] == video && View().media[4] == imagesJson;
    }

    /** The sizing pass of MarshalTyped. */
    method EncodedSize() returns (size: nat)
      requires ValidMeta(View())
      ensures size == |EncodeMeta(View())|
    {
      hide HasMedia, LenStrings, Short;
      var count := UvarintLen(|tags|);
      var tagBytes := SizeStrings(tags);
      var fixedBytes := SizeStrings([class_, name, desc, iconUrl, dUrl, version]);
      size := CLASS_META_HEADER + count + tagBytes + fixedBytes;
      var has := HasMediaTail();
      if has {
        var mediaBytes := SizeStrings([image, altImage, audio, video, imagesJson]);
        size := size + mediaBytes;
      }
    }

    /** Sizes, then fills; the buffer never grows past the sized capacity. */
    method MarshalTyped() returns (out: bytes, capacity: nat)
      requires ValidMeta(View())
      ensures out == EncodeMeta(View()) && capacity == |out|
      ensures var tail := [image, altImage, audio, video, imagesJson];
              out == [4] + Height64(installHeight) + Height64(lastHeight) + Uvarint(|tags|) + LenStrings(tags) +
                     LenStrings([class_, name, desc, iconUrl, dUrl, version]) +
                     (if tail == [[], [], [], [], []] then [] else LenStrings(tail))
    {
      hide LenStrings, Short, HasMedia, Uvarint, Height64;
      capacity := EncodedSize();
      var header := [TAG_CLASS_META] + Height64(installHeight) + Height64(lastHeight) + Uvarint(|tags|);
      out := AppendStrings(header, tags);
      out := AppendStrings(out, [class_, name, desc, iconUrl, dUrl, version]);
      assert out == EncodeFixed(View());
      hide EncodeFixed;
      assert out + [] == out;
      var has := HasMediaTail();
      if has {
        out := AppendStrings(out, [image, altImage, audio, video, imagesJson]);
      }
    }

    /**
     Two passes over an untrusted record: the result is what the plain reader gives, a reused
     receiver keeps nothing of an earlier record, and a failure leaves all strings alone.
     */
    method UnmarshalTyped(b: bytes) returns (ok: bool)
      modifies this
      ensures ok == DecodeMeta(b).Some?
      ensures ok ==> View() == DecodeMeta(b).value
      ensures !ok ==> tags == old(tags) && View().fixed == old(View().fixed) && View().media == old(View().media)
    {
      hide ReadStrings, ReadUvarint, FromBigEndian, Int64FromBits, TotalLen;
      if |b| < CLASS_META_HEADER || b[0] != TAG_CLASS_META {
        return false;
      }
      installHeight := Int64FromBits(FromBigEndian(b[1..9]));
      lastHeight := Int64FromBits(FromBigEndian(b[9..17]));
      var count := ReadUvarint(b[17..]);
      if count.size == 0 {
        return false;
      }
      var pos := 17 + count.size;
      if count.value > |b| - pos {
        assert ReadStrings(b, pos, count.value) == None by { CountBound(b, pos, count.value); }
        return false;
      }
      var tagsOk, tagTotal, p := SumStrings(b, pos, count.value);
      if !tagsOk {
        return false;
      }
      var fixedOk, fixedTotal, q := SumStrings(b, p, FIXED_FIELDS);
      if !fixedOk {
        return false;
      }
      assert DecodeHead(b) == Some(Head(installHeight, lastHeight, ReadStrings(b, pos, count.value).value.texts,
                                        ReadStrings(b, p, FIXED_FIELDS).value.texts, q));
      var mediaOk, mediaTotal := false, 0;
      if q < |b| {
        var end;
        mediaOk, mediaTotal, end := SumStrings(b, q, MEDIA_FIELDS);
      } else {
        assert ReadStrings(b, q, MEDIA_FIELDS) == None by { NothingThere(b, q); }
      }
      CutAll(b, pos, count.value, tagTotal + fixedTotal + (if mediaOk then mediaTotal else 0), mediaOk);
      ok := true;
    }

    /** Pass 2, over the extents pass 1 accepted. */
    method CutAll(b: bytes, pos: nat, tagCount: nat, total: nat, mediaOk: bool)
      requires ReadStrings(b, pos, tagCount).Some?
      requires ReadStrings(b, ReadStrings(b, pos, tagCount).value.next, FIXED_FIELDS).Some?
      requires var t := ReadStrings(b, pos, tagCount).value; var f := ReadStrings(b, t.next, FIXED_FIELDS).value;
               var m := ReadStrings(b, f.next, MEDIA_FIELDS);
               && mediaOk == m.Some?
               && total == TotalLen(t.texts) + TotalLen(f.texts) + (if mediaOk then TotalLen(m.value.texts) else 0)
      modifies this`tags, this`class_, this`name, this`desc, this`iconUrl, this`dUrl, this`version
      modifies this`image, this`altImage, this`audio, this`video, this`imagesJson
      ensures var t := ReadStrings(b, pos, tagCount).value; var f := ReadStrings(b, t.next, FIXED_FIELDS).value;
              var m := ReadStrings(b, f.next, MEDIA_FIELDS);
              && View().tags == t.texts && View().fixed == f.texts
              && View().media == if mediaOk then m.value.texts else NO_MEDIA
    {
      hide ReadStrings, TotalLen, Resolve, Packed;
      var sbuf := new byte[total];
      var tagCuts, p, off := CutStrings(b, pos, tagCount, sbuf, 0);
      ghost var buf1 := sbuf[..];
      var fixedCuts, q, off' := CutStrings(b, p, FIXED_FIELDS, sbuf, off);
      ResolveKept(buf1, sbuf[..], tagCuts, off);
      ghost var buf2 := sbuf[..];
      var mediaCuts := [];
      var end := off';
      if mediaOk {
        mediaCuts, q, end := CutStrings(b, q, MEDIA_FIELDS, sbuf, off');
        assert buf2[..off] == buf2[..off'][..off] && sbuf[..][..off] == sbuf[..][..off'][..off];
        ResolveKept(buf2, sbuf[..], tagCuts, off);
        ResolveKept(buf2, sbuf[..], fixedCuts, off');
      }
      assert end == sbuf.Length;
      SetStrings(sbuf[..], tagCuts, fixedCuts, mediaCuts);
    }

    /** Every view resolved against the finished buffer; absent media are cleared. */
    method SetStrings(buf: bytes, tagCuts: seq<Slice>, fixedCuts: seq<Slice>, mediaCuts: seq<Slice>)
      requires Within(tagCuts, |buf|) && Within(fixedCuts, |buf|) && Within(mediaCuts, |buf|)
      requires |fixedCuts| == FIXED_FIELDS && (mediaCuts == [] || |mediaCuts| == MEDIA_FIELDS)
      modifies this`tags, this`class_, this`name, this`desc, this`iconUrl, this`dUrl, this`version
      modifies this`image, this`altImage, this`audio, this`video, this`imagesJson
      ensures View().tags == Resolve(buf, tagCuts) && View().fixed == Resolve(buf, fixedCuts)
      ensures View().media == if mediaCuts == [] then NO_MEDIA else Resolve(buf, mediaCuts)
    {
      hide Resolve;
      tags := ResolveAll(buf, tagCuts);
      var f := ResolveAll(buf, fixedCuts);
      var m := NO_MEDIA;
      if mediaCuts != [] {
        m := ResolveAll(buf, mediaCuts);
      }
      SetFixed(f);
      SetMedia(m);
    }

    method SetFixed(f: seq<bytes>)
      requires |f| == FIXED_FIELDS
      modifies this`class_, this`name, this`desc, this`iconUrl, this`dUrl, this`version
      ensures View().fixed == f
    {
      class_, name, desc, iconUrl, dUrl, version := f[0], f[1], f[2], f[3], f[4], f[5];
    }

    method SetMedia(m: seq<bytes>)
      requires |m| == MEDIA_FIELDS
      modifies this`image, this`altImage, this`audio, this`video, this`imagesJson
      ensures View().media == m
    {
      image, altImage, audio, video, imagesJson := m[0], m[1], m[2], m[3], m[4];
    }
  }

  method ResolveAll(buf: bytes, cuts: seq<Slice>) returns (texts: seq<bytes>)
    requires Within(cuts, |buf|)
    ensures texts == Resolve(buf, cuts)
  {
    texts := [];
    var i := 0;
    while i < |cuts|
      invariant i <= |cuts| && |texts| == i
      invariant forall k | 0 <= k < i :: texts[k] == Resolve(buf, cuts)[k]
    {
      texts := texts + [buf[cuts[i].off..cuts[i].off + cuts[i].len]];
      i := i + 1;
    }
  }

  /** The early count check refuses only records the plain reader refuses: each tag takes a byte. */
  lemma CountBound(b: bytes, pos: nat, n: nat)
    requires pos <= |b|
    ensures n > |b| - pos ==> ReadStrings(b, pos, n) == None
  {
  }
}
