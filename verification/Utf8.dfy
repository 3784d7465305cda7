/**
 UTF-8 as Go reads it (unicode/utf8), over one character per byte: which byte strings are valid,
 and the replacement of each bad byte by U+FFFD that encoding/json applies to string content.
 */
module Utf8 {
  const REPLACEMENT: string := "\U{EF}\U{BF}\U{BD}"

  predicate Within(t: string, i: nat, lo: nat, hi: nat) { i < |t| && lo <= t[i] as int <= hi }
  predicate Tail(t: string, i: nat) { Within(t, i, 0x80, 0xBF) }

  /** The length of the rune in front, 0 when the first byte starts none. */
  function RuneLength(t: string): (n: nat)
    ensures n <= 4 && n <= |t|
  {
    if t == "" then 0
    else
      var c := t[0] as int;
      if c < 0x80 then 1
      else if 0xC2 <= c <= 0xDF then (if Tail(t, 1) then 2 else 0)
      else if 0xE0 <= c <= 0xEF then
        (if Within(t, 1, if c == 0xE0 then 0xA0 else 0x80, if c == 0xED then 0x9F else 0xBF) && Tail(t, 2) then 3
            else 0)
      else if 0xF0 <= c <= 0xF4 then
        (if Within(t, 1, if c == 0xF0 then 0x90 else 0x80, if c == 0xF4 then 0x8F else 0xBF) && Tail(t, 2)
            && Tail(t, 3) then 4 else 0)
      else 0
  }

  /** utf8.ValidString. */
  predicate Valid(t: string) { t == "" || (RuneLength(t) > 0 && Valid(t[RuneLength(t)..])) }

  /** String content after decoding: every byte that starts no rune becomes U+FFFD. */
  function Sanitize(t: string): string {
    if t == "" then ""
    else if RuneLength(t) == 0 then REPLACEMENT + Sanitize(t[1..])
    else t[..RuneLength(t)] + Sanitize(t[RuneLength(t)..])
  }

  predicate IsAscii(t: string) { forall i | 0 <= i < |t| :: t[i] as int < 0x80 }

  lemma {:induction false} SanitizeGrows(t: string)
    ensures |Sanitize(t)| >= |t| && (|Sanitize(t)| == |t| ==> Valid(t))
  {
    if t != "" {
      SanitizeGrows(t[if RuneLength(t) == 0 then 1 else RuneLength(t)..]);
    }
  }

  /** Decoding leaves a string alone exactly when it is valid. */
  lemma {:induction false} SanitizeKeepsExactlyValid(t: string)
    ensures Sanitize(t) == t <==> Valid(t)
  {
    SanitizeGrows(t);
    if t != "" && RuneLength(t) > 0 {
      SanitizeKeepsExactlyValid(t[RuneLength(t)..]);
      assert t == t[..RuneLength(t)] + t[RuneLength(t)..];
    }
  }

  /** Replacement never makes an ASCII word out of another string. */
  lemma {:induction false} SanitizeToAscii(t: string, word: string)
    requires Sanitize(t) == word && IsAscii(word)
    ensures t == word
  {
    if t != "" {
      var n := RuneLength(t);
      assert |word| > 0 && word[0] == if n == 0 then '\U{EF}' else t[0];
      SanitizeToAscii(t[1..], word[1..]);
      assert t == [t[0]] + t[1..] && word == [word[0]] + word[1..];
    }
  }

  lemma {:induction false} AsciiIsValid(t: string)
    requires IsAscii(t)
    ensures Valid(t)
  {
    if t != "" {
      AsciiIsValid(t[1..]);
    }
  }

  // ---------- Valid strings are the encodings of scalar values ----------

  predicate Scalar(r: int) { 0 <= r < 0xD800 || 0xE000 <= r < 0x110000 }

  /** The byte with value b. */
  function Byte(b: int): char
    requires 0 <= b < 0x100
  {
    b as char
  }

  /** utf8.AppendRune. */
  function Encode(r: int): string
    requires Scalar(r)
  {
    if r < 0x80 then [Byte(r)]
    else if r < 0x800 then [Byte(0xC0 + r / 0x40), Byte(0x80 + r % 0x40)]
    else if r < 0x10000 then [Byte(0xE0 + r / 0x1000), Byte(0x80 + r / 0x40 % 0x40), Byte(0x80 + r % 0x40)]
    else [Byte(0xF0 + r / 0x40000), Byte(0x80 + r / 0x1000 % 0x40), Byte(0x80 + r / 0x40 % 0x40), Byte(0x80 + r % 0x40)]
  }

  function EncodeAll(rs: seq<int>): string
    requires forall i | 0 <= i < |rs| :: Scalar(rs[i])
  {
    if rs == [] then "" else Encode(rs[0]) + EncodeAll(rs[1..])
  }

  /** The scalar value a rune encodes. */
  function Decoded(t: string): int
    requires RuneLength(t) > 0
  {
    var a := t[0] as int;
    if RuneLength(t) == 1 then a
    else
      var b := t[1] as int - 0x80;
      if RuneLength(t) == 2 then (a - 0xC0) * 0x40 + b
      else
        var c := t[2] as int - 0x80;
        if RuneLength(t) == 3 then (a - 0xE0) * 0x1000 + b * 0x40 + c
        else (a - 0xF0) * 0x40000 + b * 0x1000 + c * 0x40 + (t[3] as int - 0x80)
  }

  lemma EncodedIsRune(r: int, rest: string)
    requires Scalar(r)
    ensures RuneLength(Encode(r) + rest) == |Encode(r)| > 0
  {
  }

  lemma SixBits(a: int, b: int)
    requires a >= 0 && 0 <= b < 0x40
    ensures (a * 0x40 + b) / 0x40 == a && (a * 0x40 + b) % 0x40 == b
  {
  }

  lemma ThreeParts(a: int, b: int, c: int)
    requires a >= 0 && 0 <= b < 0x40 && 0 <= c < 0x40
    ensures var r := a * 0x1000 + b * 0x40 + c; r / 0x1000 == a && r / 0x40 % 0x40 == b && r % 0x40 == c
  {
    SixBits(a * 0x40 + b, c);
    SixBits(a, b);
    var r := a * 0x1000 + b * 0x40 + c;
    assert r / 0x1000 == r / 0x40 / 0x40;
  }

  lemma FourParts(a: int, b: int, c: int, d: int)
    requires a >= 0 && 0 <= b < 0x40 && 0 <= c < 0x40 && 0 <= d < 0x40
    ensures var r := a * 0x40000 + b * 0x1000 + c * 0x40 + d;
            r / 0x40000 == a && r / 0x1000 % 0x40 == b && r / 0x40 % 0x40 == c && r % 0x40 == d
  {
    ThreeParts(a * 0x40 + b, c, d);
    SixBits(a, b);
    var r := a * 0x40000 + b * 0x1000 + c * 0x40 + d;
    assert r / 0x40000 == r / 0x1000 / 0x40;
  }

  lemma RuneShape(t: string)
    requires RuneLength(t) > 0
    ensures Scalar(Decoded(t))
    ensures var n, r := RuneLength(t), Decoded(t);
            && (n == 1 <==> r < 0x80) && (n == 2 <==> 0x80 <= r < 0x800) && (n == 3 <==> 0x800 <= r < 0x10000)
            && (n == 2 ==> t[0] as int >= 0xC0) && (n == 3 ==> t[0] as int >= 0xE0) && (n == 4 ==> t[0] as int >= 0xF0)
    ensures forall i | 1 <= i < RuneLength(t) :: 0 <= t[i] as int - 0x80 < 0x40
  {
  }

  lemma RuneIsEncoded(t: string)
    requires RuneLength(t) > 0
    ensures Scalar(Decoded(t)) && Encode(Decoded(t)) == t[..RuneLength(t)]
  {
    hide RuneLength;
    RuneShape(t);
    var n, a := RuneLength(t), t[0] as int;
    if n == 2 {
      SixBits(a - 0xC0, t[1] as int - 0x80);
    } else if n == 3 {
      ThreeParts(a - 0xE0, t[1] as int - 0x80, t[2] as int - 0x80);
    } else if n == 4 {
      FourParts(a - 0xF0, t[1] as int - 0x80, t[2] as int - 0x80, t[3] as int - 0x80);
    }
  }

  ghost predicate IsEncoding(t: string, rs: seq<int>) {
    (forall i | 0 <= i < |rs| :: Scalar(rs[i])) && t == EncodeAll(rs)
  }

  lemma {:induction false} EncodingIsValid(rs: seq<int>)
    requires forall i | 0 <= i < |rs| :: Scalar(rs[i])
    ensures Valid(EncodeAll(rs))
  {
    if rs != [] {
      EncodingIsValid(rs[1..]);
      EncodedIsRune(rs[0], EncodeAll(rs[1..]));
      assert EncodeAll(rs)[|Encode(rs[0])|..] == EncodeAll(rs[1..]);
    }
  }

  lemma {:induction false} ValidIsEncoding(t: string) returns (rs: seq<int>)
    requires Valid(t)
    ensures IsEncoding(t, rs)
  {
    if t == "" {
      rs := [];
    } else {
      var tail := ValidIsEncoding(t[RuneLength(t)..]);
      RuneIsEncoded(t);
      rs := [Decoded(t)] + tail;
      assert rs[1..] == tail;
    }
  }

  /** The byte rules accept exactly the concatenated encodings of Unicode scalar values. */
  lemma ValidIsUnicode(t: string)
    ensures Valid(t) <==> exists rs :: IsEncoding(t, rs)
  {
    if Valid(t) {
      var rs := ValidIsEncoding(t);
    }
    if rs :| IsEncoding(t, rs) {
      EncodingIsValid(rs);
    }
  }

  // ---------- What replacement leaves ----------

  lemma RuneAlone(t: string, rest: string)
    requires RuneLength(t) > 0
    ensures RuneLength(t[..RuneLength(t)] + rest) == RuneLength(t)
  {
  }

  /** U+FFFD in three bytes. */
  lemma ReplacementIsRune(rest: string)
    ensures Scalar(0xFFFD) && Encode(0xFFFD) == REPLACEMENT == "\U{EF}\U{BF}\U{BD}"
    ensures RuneLength(REPLACEMENT + rest) == 3
  {
  }

  /** Decoded content is always valid UTF-8. */
  lemma {:induction false} SanitizedIsValid(t: string)
    ensures Valid(Sanitize(t))
  {
    if t != "" {
      var n := RuneLength(t);
      var rest := Sanitize(t[if n == 0 then 1 else n..]);
      SanitizedIsValid(t[if n == 0 then 1 else n..]);
      if n == 0 {
        ReplacementIsRune(rest);
        assert (REPLACEMENT + rest)[3..] == rest;
      } else {
        RuneAlone(t, rest);
        assert (t[..n] + rest)[n..] == rest;
      }
      hide RuneLength;
    }
  }

  /** Runes are kept, and a byte that starts none becomes U+FFFD. */
  lemma {:induction false} SanitizeParts(rs: seq<int>, t: string)
    requires forall i | 0 <= i < |rs| :: Scalar(rs[i])
    ensures Sanitize(EncodeAll(rs) + t) == EncodeAll(rs) + Sanitize(t)
    ensures t != "" && RuneLength(t) == 0 ==> Sanitize(t) == Encode(0xFFFD) + Sanitize(t[1..])
  {
    ReplacementIsRune("");
    if rs == [] {
      assert EncodeAll(rs) + t == t;
    } else {
      var head, tail := Encode(rs[0]), EncodeAll(rs[1..]) + t;
      SanitizeParts(rs[1..], t);
      EncodedIsRune(rs[0], tail);
      assert EncodeAll(rs) + t == head + tail;
      assert (head + tail)[..|head|] == head && (head + tail)[|head|..] == tail;
      hide RuneLength, Encode;
      assert Sanitize(head + tail) == head + Sanitize(tail);
    }
  }
}
