/**
 JSON texts as concrete syntax trees (RFC 8259, sections 2 to 7), one character per byte.
 A tree keeps its whitespace, so unparsing gives back the exact text.
 */
module JsonGrammar {
  import opened IndexTypes

  /** A string keeps its raw characters between the quotes; a number keeps its four parts. */
  datatype Json =
    | Str(raw: string)
    | Num(neg: bool, whole: string, frac: string, exp: string)
    | Word(text: string)
    | Obj(ws: string, ms: Members)
    | Arr(ws: string, es: Elements)

  datatype Members =
    | NoMembers
    | Member(pre: string, key: string, mid: string, gap: string, value: Json, post: string, rest: Members)

  datatype Elements =
    | NoElements
    | Element(pre: string, value: Json, post: string, rest: Elements)

  predicate IsWs(c: char) { c == ' ' || c == '\t' || c == '\n' || c == '\r' }
  predicate AllWs(t: string) { forall i | 0 <= i < |t| :: IsWs(t[i]) }
  predicate IsDigit(c: char) { '0' <= c <= '9' }
  predicate AllDigits(t: string) { forall i | 0 <= i < |t| :: IsDigit(t[i]) }
  predicate IsHex(c: char) { IsDigit(c) || 'a' <= c <= 'f' || 'A' <= c <= 'F' }
  predicate IsSimpleEscape(c: char) {
    c == '"' || c == '\\' || c == '/' || c == 'b' || c == 'f' || c == 'n' || c == 'r' || c == 't'
  }

  /** Section 7: unescaped characters, two-character escapes and \uXXXX. */
  predicate WfString(raw: string) {
    if raw == "" then true
    else if raw[0] == '\\' then
      |raw| >= 2 &&
      (if IsSimpleEscape(raw[1]) then WfString(raw[2..])
       else
         raw[1] == 'u' && |raw| >= 6 && IsHex(raw[2]) && IsHex(raw[3]) && IsHex(raw[4]) && IsHex(raw[5]) &&
         WfString(raw[6..]))
    else raw[0] >= ' ' && raw[0] != '"' && WfString(raw[1..])
  }

  /** Section 6: no leading zero, digits after the point and after the exponent mark. */
  predicate WfNumber(v: Json)
    requires v.Num?
  {
    && v.whole != "" && AllDigits(v.whole) && (v.whole[0] == '0' ==> |v.whole| == 1)
    && (v.frac != "" ==> v.frac[0] == '.' && |v.frac| >= 2 && AllDigits(v.frac[1..]))
    && (v.exp != "" ==> WfExponent(v.exp))
  }

  predicate WfExponent(exp: string)
    requires exp != ""
  {
    && (exp[0] == 'e' || exp[0] == 'E')
    && (var signed := |exp| >= 2 && (exp[1] == '+' || exp[1] == '-');
        var digits := if signed then exp[2..] else exp[1..];
        digits != "" && AllDigits(digits))
  }

  /** The characters of RFC 8259 by code point: whitespace, digits, hexadecimal digits, two-character escapes. */
  lemma CharacterClasses(c: char)
    ensures IsWs(c) <==> c as int in {0x20, 0x09, 0x0A, 0x0D}
    ensures IsDigit(c) <==> 0x30 <= c as int <= 0x39
    ensures IsHex(c) <==> 0x30 <= c as int <= 0x39 || 0x41 <= c as int <= 0x46 || 0x61 <= c as int <= 0x66
    ensures IsSimpleEscape(c) <==> c as int in {0x22, 0x5C, 0x2F, 0x62, 0x66, 0x6E, 0x72, 0x74}
  {
  }

  /** A character stands for itself in a string unless it is a control character, the quote or the backslash. */
  lemma {:induction false} PlainStrings(t: string)
    requires forall i | 0 <= i < |t| :: t[i] != '\\'
    ensures WfString(t) <==> forall i | 0 <= i < |t| :: t[i] as int >= 0x20 && t[i] as int != 0x22
  {
    if t != "" {
      PlainStrings(t[1..]);
      assert forall i | 1 <= i < |t| :: t[i] == t[1..][i - 1];
    }
  }

  /** A backslash starts one of the eight two-character escapes or the four hexadecimal digits of a \\u escape. */
  lemma EscapedStrings(c: char, rest: string)
    ensures WfString(['\\', c] + rest) <==>
            if c as int in {0x22, 0x5C, 0x2F, 0x62, 0x66, 0x6E, 0x72, 0x74} then WfString(rest)
            else c as int == 0x75 && |rest| >= 4 && (forall i | 0 <= i < 4 :: IsHex(rest[i])) && WfString(rest[4..])
  {
    CharacterClasses(c);
    hide IsHex, IsSimpleEscape;
    var raw := ['\\', c] + rest;
    assert raw[2..] == rest && (|rest| >= 4 ==> raw[6..] == rest[4..]);
  }

  predicate IsLiteral(t: string) { t == "true" || t == "false" || t == "null" }

  predicate Wf(v: Json) {
    match v
    case Str(raw) => WfString(raw)
    case Num(_, _, _, _) => WfNumber(v)
    case Word(text) => IsLiteral(text)
    case Obj(ws, ms) => AllWs(ws) && (ms != NoMembers ==> ws == "") && WfMembers(ms)
    case Arr(ws, es) => AllWs(ws) && (es != NoElements ==> ws == "") && WfElements(es)
  }

  predicate WfMembers(ms: Members) {
    match ms
    case NoMembers => true
    case Member(pre, key, mid, gap, value, post, rest) =>
      AllWs(pre) && WfString(key) && AllWs(mid) && AllWs(gap) && Wf(value) && AllWs(post) && WfMembers(rest)
  }

  predicate WfElements(es: Elements) {
    match es
    case NoElements => true
    case Element(pre, value, post, rest) => AllWs(pre) && Wf(value) && AllWs(post) && WfElements(rest)
  }

  function NumText(v: Json): string
    requires v.Num?
  {
    (if v.neg then "-" else "") + v.whole + v.frac + v.exp
  }

  function Quoted(raw: string): string { "\"" + raw + "\"" }

  function Unparse(v: Json): string {
    match v
    case Str(raw) => Quoted(raw)
    case Num(_, _, _, _) => NumText(v)
    case Word(text) => text
    case Obj(ws, ms) => "{" + (if ms.NoMembers? then ws + "}" else UnparseMembers(ms))
    case Arr(ws, es) => "[" + (if es.NoElements? then ws + "]" else UnparseElements(es))
  }

  /** The members with the closing brace. */
  function UnparseMembers(ms: Members): string {
    match ms
    case NoMembers => ""
    case Member(pre, key, mid, gap, value, post, rest) =>
      pre + Quoted(key) + mid + ":" + gap + Unparse(value) + post +
      (if rest.NoMembers? then "}" else "," + UnparseMembers(rest))
  }

  /** The elements with the closing bracket. */
  function UnparseElements(es: Elements): string {
    match es
    case NoElements => ""
    case Element(pre, value, post, rest) =>
      pre + Unparse(value) + post + (if rest.NoElements? then "]" else "," + UnparseElements(rest))
  }

  /** Every number of the value is in range for the decoder. */
  predicate Convertible(ok: string -> bool, v: Json) {
    match v
    case Num(_, _, _, _) => ok(NumText(v))
    case Obj(_, ms) => ConvertibleMembers(ok, ms)
    case Arr(_, es) => ConvertibleElements(ok, es)
    case _ => true
  }

  predicate ConvertibleMembers(ok: string -> bool, ms: Members) {
    ms.Member? ==> Convertible(ok, ms.value) && ConvertibleMembers(ok, ms.rest)
  }

  predicate ConvertibleElements(ok: string -> bool, es: Elements) {
    es.Element? ==> Convertible(ok, es.value) && ConvertibleElements(ok, es.rest)
  }

  /** Levels of values: 1 for a scalar or an empty container. */
  function Height(v: Json): (h: nat)
    ensures h >= 1
  {
    match v
    case Obj(_, ms) => 1 + HeightMembers(ms)
    case Arr(_, es) => 1 + HeightElements(es)
    case _ => 1
  }

  function HeightMembers(ms: Members): nat {
    if ms.NoMembers? then 0 else Max(Height(ms.value), HeightMembers(ms.rest))
  }

  function HeightElements(es: Elements): nat {
    if es.NoElements? then 0 else Max(Height(es.value), HeightElements(es.rest))
  }

  /** Levels of containers, which is what encoding/json bounds. */
  function Nesting(v: Json): nat {
    match v
    case Obj(_, ms) => 1 + NestingMembers(ms)
    case Arr(_, es) => 1 + NestingElements(es)
    case _ => 0
  }

  function NestingMembers(ms: Members): nat {
    if ms.NoMembers? then 0 else Max(Nesting(ms.value), NestingMembers(ms.rest))
  }

  function NestingElements(es: Elements): nat {
    if es.NoElements? then 0 else Max(Nesting(es.value), NestingElements(es.rest))
  }

  lemma {:induction false} NestingBelowHeight(v: Json)
    ensures Nesting(v) <= Height(v) <= Nesting(v) + 1
  {
    match v {
      case Obj(_, ms) => NestingBelowHeightMembers(ms);
      case Arr(_, es) => NestingBelowHeightElements(es);
      case _ =>
    }
  }

  lemma {:induction false} NestingBelowHeightMembers(ms: Members)
    ensures NestingMembers(ms) <= HeightMembers(ms) <= NestingMembers(ms) + 1
  {
    if ms.Member? {
      NestingBelowHeight(ms.value);
      NestingBelowHeightMembers(ms.rest);
    }
  }

  lemma {:induction false} NestingBelowHeightElements(es: Elements)
    ensures NestingElements(es) <= HeightElements(es) <= NestingElements(es) + 1
  {
    if es.Element? {
      NestingBelowHeight(es.value);
      NestingBelowHeightElements(es.rest);
    }
  }
}
