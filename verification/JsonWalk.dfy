/**
 The validating walk of indexer/classify_g45_scan.go over a remaining text, with the tree it
 walked. It accepts exactly the texts of module JsonGrammar, up to a depth limit and a number test.
 */
module JsonWalk {
  import opened IndexTypes
  import opened JsonGrammar

  /** The three verdicts; an accepted part comes with its tree and the text behind it. */
  datatype Walked<+T> = Ok(value: T, rest: string) | NoFields | Fallback

  // ---------- Whitespace, strings, numbers ----------

  /** g45skipWS: the text from the first non-whitespace character on. */
  function Skip(t: string): (r: string)
    ensures |r| <= |t|
    ensures r != "" ==> !IsWs(r[0])
  {
    if t != "" && IsWs(t[0]) then Skip(t[1..]) else t
  }

  /** The whitespace in front. */
  function Lead(t: string): string { t[..|t| - |Skip(t)|] }

  lemma {:induction false} LeadSkip(t: string)
    ensures AllWs(Lead(t)) && t == Lead(t) + Skip(t)
  {
    if t != "" && IsWs(t[0]) {
      LeadSkip(t[1..]);
      assert Lead(t) == [t[0]] + Lead(t[1..]);
    }
  }

  lemma {:induction false} SkipWs(w: string, rest: string)
    requires AllWs(w) && (rest != "" ==> !IsWs(rest[0]))
    ensures Skip(w + rest) == rest && Lead(w + rest) == w
  {
    if w == "" {
      assert w + rest == rest;
    } else {
      SkipWs(w[1..], rest);
      assert (w + rest)[1..] == w[1..] + rest;
    }
  }

  /** g45scanString from behind the opening quote: the position of the closing one. */
  function StringEnd(t: string): (e: Option<nat>)
    ensures e.Some? ==> e.value < |t| && t[e.value] == '"'
  {
    if t == "" then None
    else if t[0] == '"' then Some(0)
    else if t[0] == '\\' then
      if |t| < 2 then None
      else if IsSimpleEscape(t[1]) then Shift(StringEnd(t[2..]), 2)
      else if t[1] == 'u' && |t| >= 6 && IsHex(t[2]) && IsHex(t[3]) && IsHex(t[4]) && IsHex(t[5])
          then Shift(StringEnd(t[6..]), 6)
      else None
    else if t[0] < ' ' then None
    else Shift(StringEnd(t[1..]), 1)
  }

  function Shift(e: Option<nat>, n: nat): Option<nat> {
    match e case None => None case Some(k) => Some(k + n)
  }

  lemma {:induction false} StringEndSound(t: string)
    requires StringEnd(t).Some?
    ensures WfString(t[..StringEnd(t).value])
  {
    hide IsHex, IsSimpleEscape;
    var e := StringEnd(t).value;
    if t[0] != '"' {
      var n := if t[0] != '\\' then 1 else if IsSimpleEscape(t[1]) then 2 else 6;
      assert StringEnd(t) == Shift(StringEnd(t[n..]), n);
      StringEndSound(t[n..]);
      TakeDrop(t, n, e);
      assert t[..e][0] == t[0] && (n > 1 ==> t[..e][1] == t[1]);
    }
  }

  lemma TakeDrop(t: string, n: nat, e: nat)
    requires n <= e <= |t|
    ensures t[..e][n..] == t[n..][..e - n]
  {
  }

  lemma {:induction false} StringEndComplete(raw: string, rest: string)
    requires WfString(raw)
    ensures StringEnd(raw + "\"" + rest) == Some(|raw|)
  {
    var t := raw + "\"" + rest;
    if raw == "" {
    } else {
      var n := if raw[0] != '\\' then 1 else if IsSimpleEscape(raw[1]) then 2 else 6;
      StringEndComplete(raw[n..], rest);
      assert t[n..] == raw[n..] + "\"" + rest;
    }
  }

  function Digits(t: string): (n: nat)
    ensures n <= |t| && AllDigits(t[..n]) && (n < |t| ==> !IsDigit(t[n]))
  {
    if t != "" && IsDigit(t[0]) then
      var n := Digits(t[1..]);
      assert t[..n + 1] == [t[0]] + t[1..][..n];
      n + 1
    else 0
  }

  lemma {:induction false} DigitsOf(d: string, rest: string)
    requires AllDigits(d) && (rest != "" ==> !IsDigit(rest[0]))
    ensures Digits(d + rest) == |d|
  {
    if d == "" {
      assert d + rest == rest;
    } else {
      DigitsOf(d[1..], rest);
      assert (d + rest)[1..] == d[1..] + rest;
    }
  }

  /** The fraction and exponent parts, "" when absent, None when malformed. */
  function FracPart(t: string): (f: Option<string>)
    ensures f.Some? ==> |f.value| <= |t| && t[..|f.value|] == f.value
  {
    if t == "" || t[0] != '.' then Some("")
    else if Digits(t[1..]) == 0 then None else Some(t[..Digits(t[1..]) + 1])
  }

  function ExpPart(t: string): (e: Option<string>)
    ensures e.Some? ==> |e.value| <= |t| && t[..|e.value|] == e.value
  {
    if t == "" || (t[0] != 'e' && t[0] != 'E') then Some("")
    else
      var k := if |t| >= 2 && (t[1] == '+' || t[1] == '-') then 2 else 1;
      if Digits(t[k..]) == 0 then None else Some(t[..k + Digits(t[k..])])
  }

  function WholePart(t: string): (w: Option<string>)
    ensures w.Some? ==> 0 < |w.value| <= |t| && t[..|w.value|] == w.value
  {
    if t == "" || !IsDigit(t[0]) then None
    else if t[0] == '0' then Some("0")
    else Some(t[..Digits(t)])
  }

  /** g45skipNumber up to the float64 test. */
  function NumberAt(t: string): (r: Option<Json>)
    ensures r.Some? ==> r.value.Num? && 0 < |NumText(r.value)| <= |t| && t[..|NumText(r.value)|] == NumText(r.value)
  {
    var neg := t != "" && t[0] == '-';
    var t1 := if neg then t[1..] else t;
    match WholePart(t1)
    case None => None
    case Some(w) =>
      var t2 := t1[|w|..];
      match FracPart(t2)
      case None => None
      case Some(f) =>
        var t3 := t2[|f|..];
        match ExpPart(t3)
        case None => None
        case Some(e) =>
          var v := Num(neg, w, f, e);
          NumberPieces(t, neg, w, f, e);
          Some(v)
  }

  lemma NumberPieces(t: string, neg: bool, w: string, f: string, e: string)
    requires neg ==> t != "" && t[0] == '-'
    requires var t1 := if neg then t[1..] else t;
             && |w| <= |t1| && t1[..|w|] == w
             && (var t2 := t1[|w|..];
                 && |f| <= |t2| && t2[..|f|] == f
                 && (var t3 := t2[|f|..]; |e| <= |t3| && t3[..|e|] == e))
    ensures var text := NumText(Num(neg, w, f, e)); |text| <= |t| && t[..|text|] == text
  {
    var t1 := if neg then t[1..] else t;
    var t2 := t1[|w|..];
    var t3 := t2[|f|..];
    var sign, t4 := if neg then "-" else "", t3[|e|..];
    assert t == sign + t1 && t1 == w + t2 && t2 == f + t3 && t3 == e + t4;
    Regroup(sign, w, f, e, t4);
  }

  lemma Regroup(a: string, b: string, c: string, d: string, rest: string)
    ensures a + (b + (c + (d + rest))) == (a + b + c + d) + rest
  {
  }

  lemma NumberAtSound(t: string)
    requires NumberAt(t).Some?
    ensures WfNumber(NumberAt(t).value)
  {
    hide WholePart, FracPart, ExpPart, NumText, WfExponent;
    var neg := t != "" && t[0] == '-';
    var t1 := if neg then t[1..] else t;
    WholePartSound(t1);
    var t2 := t1[|WholePart(t1).value|..];
    FracPartSound(t2);
    ExpPartSound(t2[|FracPart(t2).value|..]);
  }

  lemma WholePartSound(t: string)
    requires WholePart(t).Some?
    ensures var w := WholePart(t).value; w != "" && AllDigits(w) && (w[0] == '0' ==> |w| == 1)
  {
  }

  lemma FracPartSound(t: string)
    requires FracPart(t).Some?
    ensures var f := FracPart(t).value; f != "" ==> f[0] == '.' && |f| >= 2 && AllDigits(f[1..])
  {
    var f := FracPart(t).value;
    if f != "" {
      assert f[1..] == t[1..][..Digits(t[1..])];
    }
  }

  lemma ExpPartSound(t: string)
    requires ExpPart(t).Some?
    ensures ExpPart(t).value != "" ==> WfExponent(ExpPart(t).value)
  {
    var e := ExpPart(t).value;
    if e != "" {
      var k := if |t| >= 2 && (t[1] == '+' || t[1] == '-') then 2 else 1;
      assert e[k..] == t[k..][..Digits(t[k..])];
    }
  }

  /** What may follow a value in a JSON text. */
  predicate Ends(rest: string) {
    rest == "" || IsWs(rest[0]) || rest[0] == ',' || rest[0] == '}' || rest[0] == ']'
  }

  lemma WholePartComplete(w: string, rest: string)
    requires w != "" && AllDigits(w) && (w[0] == '0' ==> |w| == 1) && (rest != "" ==> !IsDigit(rest[0]))
    ensures WholePart(w + rest) == Some(w)
  {
    DigitsOf(w, rest);
    assert (w + rest)[..|w|] == w;
  }

  lemma FracPartComplete(f: string, rest: string)
    requires f != "" ==> f[0] == '.' && |f| >= 2 && AllDigits(f[1..])
    requires rest != "" ==> !IsDigit(rest[0]) && rest[0] != '.'
    ensures FracPart(f + rest) == Some(f)
  {
    if f == "" {
      assert f + rest == rest;
    } else {
      DigitsOf(f[1..], rest);
      assert (f + rest)[1..] == f[1..] + rest && (f + rest)[..|f|] == f;
    }
  }

  lemma ExpPartComplete(e: string, rest: string)
    requires (e != "" ==> WfExponent(e)) && Ends(rest)
    ensures ExpPart(e + rest) == Some(e)
  {
    if e == "" {
      assert e + rest == rest;
    } else {
      var k := if |e| >= 2 && (e[1] == '+' || e[1] == '-') then 2 else 1;
      assert |e| > k && AllDigits(e[k..]);
      hide Digits, AllDigits, WfExponent;
      DigitsOf(e[k..], rest);
      var t := e + rest;
      assert t[0] == e[0] && t[1] == e[1];
      assert t[k..] == e[k..] + rest && t[..|e|] == e;
    }
  }

  /** The number walk finds exactly a well-formed number that something else follows. */
  lemma NumberAtComplete(v: Json, rest: string)
    requires v.Num? && WfNumber(v) && Ends(rest)
    ensures NumberAt(NumText(v) + rest) == Some(v)
  {
    var t, t1 := NumText(v) + rest, v.whole + (v.frac + (v.exp + rest));
    var t2, t3 := v.frac + (v.exp + rest), v.exp + rest;
    NumberSign(v, rest);
    NumberBehind(v, rest);
    WholePartComplete(v.whole, t2);
    FracPartComplete(v.frac, t3);
    ExpPartComplete(v.exp, rest);
    hide *;
    NumberAtOf(t, v.neg, t1, v.whole, t2, v.frac, t3, v.exp);
  }

  lemma NumberSign(v: Json, rest: string)
    requires v.Num? && WfNumber(v)
    ensures var t, t1 := NumText(v) + rest, v.whole + (v.frac + (v.exp + rest));
            t != "" && (t[0] == '-' <==> v.neg) && t1 == if v.neg then t[1..] else t
  {
    var sign := if v.neg then "-" else "";
    var t1 := v.whole + (v.frac + (v.exp + rest));
    Regroup(sign, v.whole, v.frac, v.exp, rest);
    assert NumText(v) + rest == sign + t1;
    assert "" + t1 == t1;
  }

  lemma NumberAtOf(t: string, neg: bool, t1: string, w: string, t2: string, f: string, t3: string, e: string)
    requires (neg <==> t != "" && t[0] == '-') && t1 == (if neg then t[1..] else t)
    requires WholePart(t1) == Some(w) && t1 == w + t2 && FracPart(t2) == Some(f) && t2 == f + t3
             && ExpPart(t3) == Some(e)
    ensures NumberAt(t) == Some(Num(neg, w, f, e))
  {
    hide WholePart, FracPart, ExpPart, NumText;
    assert t1[|w|..] == t2 && t2[|f|..] == t3;
  }

  lemma NumberAtFails(t: string, neg: bool, t1: string, w: string, t2: string, f: string, t3: string)
    requires (neg <==> t != "" && t[0] == '-') && t1 == (if neg then t[1..] else t)
    requires || WholePart(t1).None?
             || (WholePart(t1) == Some(w) && t1 == w + t2
                 && (FracPart(t2).None? || (FracPart(t2) == Some(f) && t2 == f + t3 && ExpPart(t3).None?)))
    ensures NumberAt(t).None?
  {
    hide WholePart, FracPart, ExpPart, NumText;
    assert WholePart(t1).Some? ==> t1[|w|..] == t2;
    assert WholePart(t1).Some? && FracPart(t2).Some? ==> t2[|f|..] == t3;
  }

  lemma NumberBehind(v: Json, rest: string)
    requires v.Num? && WfNumber(v) && Ends(rest)
    ensures var t2 := v.frac + (v.exp + rest); t2 != "" ==> !IsDigit(t2[0])
    ensures var t3 := v.exp + rest; t3 != "" ==> !IsDigit(t3[0]) && t3[0] != '.'
  {
  }

  // ---------- Values ----------

  /** HasPrefix(t, w) for a literal. */
  function WalkWord(t: string, w: string): (r: Walked<Json>)
    ensures r.Ok? ==> |w| <= |t| && r.rest == t[|w|..] && r.value == Word(w)
  {
    if |t| >= |w| && t[..|w|] == w then Ok(Word(w), t[|w|..]) else NoFields
  }

  function WalkString(t: string): (r: Walked<Json>)
    requires t != ""
    ensures r.Ok? ==> |r.rest| < |t|
  {
    match StringEnd(t[1..])
    case None => NoFields
    case Some(e) => Ok(Str(t[1..][..e]), t[1..][e + 1..])
  }

  function WalkNumber(ok: string -> bool, t: string): (r: Walked<Json>)
    ensures r.Ok? ==> |r.rest| < |t|
  {
    match NumberAt(t)
    case None => NoFields
    case Some(v) => if ok(NumText(v)) then Ok(v, t[|NumText(v)|..]) else NoFields
  }

  /** g45skipValue at the first character of a value, `depth` levels down. */
  function WalkValue(ok: string -> bool, limit: nat, t: string, depth: nat): (r: Walked<Json>)
    ensures r.Ok? ==> |r.rest| < |t|
    decreases |t|, 0
  {
    if depth > limit then Fallback
    else if t == "" then NoFields
    else if t[0] == '"' then WalkString(t)
    else if t[0] == '-' || IsDigit(t[0]) then WalkNumber(ok, t)
    else if t[0] == 't' then WalkWord(t, "true")
    else if t[0] == 'f' then WalkWord(t, "false")
    else if t[0] == 'n' then WalkWord(t, "null")
    else if t[0] == '{' then
      var t1 := Skip(t[1..]);
      if t1 != "" && t1[0] == '}' then Ok(Obj(Lead(t[1..]), NoMembers), t1[1..])
      else
        match WalkMembers(ok, limit, t[1..], depth)
        case Ok(ms, rest) => Ok(Obj("", ms), rest)
        case NoFields => NoFields
        case Fallback => Fallback
    else if t[0] == '[' then
      var t1 := Skip(t[1..]);
      if t1 != "" && t1[0] == ']' then Ok(Arr(Lead(t[1..]), NoElements), t1[1..])
      else
        match WalkElements(ok, limit, t[1..], depth)
        case Ok(es, rest) => Ok(Arr("", es), rest)
        case NoFields => NoFields
        case Fallback => Fallback
    else NoFields
  }

  /** A key with its colon: what is behind them, and the raw key with the whitespace around. */
  datatype KeyAt = NoKey | KeyAt(pre: string, key: string, mid: string, gap: string, rest: string)

  function WalkKey(t: string): (k: KeyAt)
    ensures k.KeyAt? ==> |k.rest| < |t|
  {
    var t1 := Skip(t);
    if t1 == "" || t1[0] != '"' then NoKey
    else
      match StringEnd(t1[1..])
      case None => NoKey
      case Some(e) =>
        var t2 := t1[1..][e + 1..];
        var t3 := Skip(t2);
        if t3 == "" || t3[0] != ':' then NoKey
        else KeyAt(Lead(t), t1[1..][..e], Lead(t2), Lead(t3[1..]), Skip(t3[1..]))
  }

  /** What stands behind a value: the closing character, a comma, or neither. */
  datatype Sep = Broken | Closed(post: string, rest: string) | More(post: string, rest: string)

  function Behind(t: string, close: char): (s: Sep)
    ensures !s.Broken? ==> |s.rest| < |t|
  {
    var t1 := Skip(t);
    if t1 == "" then Broken
    else if t1[0] == close then Closed(Lead(t), t1[1..])
    else if t1[0] == ',' then More(Lead(t), t1[1..])
    else Broken
  }

  /** g45skipObject's loop: members up to and with the closing brace. */
  function WalkMembers(ok: string -> bool, limit: nat, t: string, depth: nat): (r: Walked<Members>)
    ensures r.Ok? ==> |r.rest| < |t|
    decreases |t|, 1
  {
    match WalkKey(t)
    case NoKey => NoFields
    case KeyAt(pre, key, mid, gap, behind) =>
      match WalkValue(ok, limit, behind, depth + 1)
      case NoFields => NoFields
      case Fallback => Fallback
      case Ok(v, after) =>
        match Behind(after, '}')
        case Broken => NoFields
        case Closed(post, rest) => Ok(Member(pre, key, mid, gap, v, post, NoMembers), rest)
        case More(post, next) =>
          match WalkMembers(ok, limit, next, depth)
          case Ok(ms, rest) => Ok(Member(pre, key, mid, gap, v, post, ms), rest)
          case NoFields => NoFields
          case Fallback => Fallback
  }

  /** g45skipArray's loop. */
  function WalkElements(ok: string -> bool, limit: nat, t: string, depth: nat): (r: Walked<Elements>)
    ensures r.Ok? ==> |r.rest| < |t|
    decreases |t|, 1
  {
    match WalkValue(ok, limit, Skip(t), depth + 1)
    case NoFields => NoFields
    case Fallback => Fallback
    case Ok(v, after) =>
      match Behind(after, ']')
      case Broken => NoFields
      case Closed(post, rest) => Ok(Element(Lead(t), v, post, NoElements), rest)
      case More(post, next) =>
        match WalkElements(ok, limit, next, depth)
        case Ok(es, rest) => Ok(Element(Lead(t), v, post, es), rest)
        case NoFields => NoFields
        case Fallback => Fallback
  }

  // ---------- The walk accepts only JSON ----------

  lemma StringSound(t: string)
    requires t != "" && t[0] == '"' && WalkString(t).Ok?
    ensures var r := WalkString(t); r.value.Str? && WfString(r.value.raw) && t == Quoted(r.value.raw) + r.rest
  {
    hide Quoted, WfString, StringEnd;
    QuotedAt(t);
  }

  lemma NumberSound(ok: string -> bool, t: string)
    requires WalkNumber(ok, t).Ok?
    ensures var r := WalkNumber(ok, t);
            && r.value.Num? && WfNumber(r.value) && ok(NumText(r.value))
            && t == NumText(r.value) + r.rest
  {
    NumberAtSound(t);
    hide NumberAt, WfNumber, NumText;
  }

  lemma WordSound(t: string, w: string)
    requires WalkWord(t, w).Ok?
    ensures t == w + WalkWord(t, w).rest
  {
  }

  lemma KeySound(t: string)
    requires WalkKey(t).KeyAt?
    ensures var k := WalkKey(t);
            && AllWs(k.pre) && WfString(k.key) && AllWs(k.mid) && AllWs(k.gap)
            && t == k.pre + Quoted(k.key) + k.mid + ":" + k.gap + k.rest
  {
    hide Skip, Lead, AllWs, WfString, StringEnd, Quoted;
    var t1 := Skip(t);
    var e := StringEnd(t1[1..]).value;
    var key, t2 := t1[1..][..e], t1[1..][e + 1..];
    var t3 := Skip(t2);
    LeadSkip(t);
    LeadSkip(t2);
    LeadSkip(t3[1..]);
    QuotedAt(t1);
    assert t3 == ":" + t3[1..];
    JoinKey(Lead(t), Quoted(key), Lead(t2), Lead(t3[1..]), Skip(t3[1..]));
  }

  lemma QuotedAt(t: string)
    requires t != "" && t[0] == '"' && StringEnd(t[1..]).Some?
    ensures var e := StringEnd(t[1..]).value; t == Quoted(t[1..][..e]) + t[1..][e + 1..] && WfString(t[1..][..e])
  {
    hide StringEnd, WfString;
    StringEndSound(t[1..]);
    var e, u := StringEnd(t[1..]).value, t[1..];
    assert t == "\"" + u && u == u[..e] + ("\"" + u[e + 1..]);
    Requote(u[..e], u[e + 1..]);
  }

  lemma Requote(raw: string, rest: string)
    ensures "\"" + (raw + ("\"" + rest)) == Quoted(raw) + rest
  {
  }

  lemma JoinKey(a: string, b: string, c: string, d: string, rest: string)
    ensures a + (b + (c + (":" + (d + rest)))) == a + b + c + ":" + d + rest
  {
  }

  lemma BehindSound(t: string, close: char)
    requires !Behind(t, close).Broken? && close != ','
    ensures var s := Behind(t, close); AllWs(s.post) && t == s.post + [if s.Closed? then close else ','] + s.rest
  {
    LeadSkip(t);
    var t1 := Skip(t);
    assert t1 == [t1[0]] + t1[1..];
  }

  lemma JoinMember(head: string, v: string, post: string, c: string, rest: string)
    ensures head + (v + (post + c + rest)) == head + v + post + c + rest
  {
  }

  lemma {:induction false} ValueSound(ok: string -> bool, limit: nat, t: string, depth: nat)
    requires WalkValue(ok, limit, t, depth).Ok?
    ensures var r := WalkValue(ok, limit, t, depth);
            && t == Unparse(r.value) + r.rest && Wf(r.value) && Convertible(ok, r.value)
            && depth + Height(r.value) <= limit + 1
    decreases |t|, 1
  {
    hide WalkString, WalkNumber, WalkWord, Skip, Lead, WfString, WfNumber, NumText, Quoted;
    if t[0] == '"' {
      StringSound(t);
    } else if t[0] == '-' || IsDigit(t[0]) {
      NumberSound(ok, t);
    } else if t[0] == 't' {
      WordSound(t, "true");
    } else if t[0] == 'f' {
      WordSound(t, "false");
    } else if t[0] == 'n' {
      WordSound(t, "null");
    } else if t[0] == '{' {
      ObjectSound(ok, limit, t, depth);
    } else {
      ArraySound(ok, limit, t, depth);
    }
  }

  lemma {:induction false} ObjectSound(ok: string -> bool, limit: nat, t: string, depth: nat)
    requires t != "" && t[0] == '{' && WalkValue(ok, limit, t, depth).Ok?
    ensures var r := WalkValue(ok, limit, t, depth);
            && t == Unparse(r.value) + r.rest && Wf(r.value) && Convertible(ok, r.value)
            && depth + Height(r.value) <= limit + 1
    decreases |t|, 0
  {
    hide Skip, Lead, AllWs, WalkMembers, UnparseMembers, WfMembers, ConvertibleMembers, HeightMembers;
    var t1 := Skip(t[1..]);
    NoWs();
    if t1 != "" && t1[0] == '}' {
      LeadSkip(t[1..]);
      NothingMembers(ok);
      assert t == "{" + (Lead(t[1..]) + "}") + t1[1..] by { assert t == "{" + t[1..] && t1 == "}" + t1[1..]; }
    } else {
      MembersSound(ok, limit, t[1..], depth);
      var r := WalkMembers(ok, limit, t[1..], depth);
      assert t == ("{" + UnparseMembers(r.value)) + r.rest by { assert t == "{" + t[1..]; }
    }
  }

  lemma NothingMembers(ok: string -> bool)
    ensures WfMembers(NoMembers) && ConvertibleMembers(ok, NoMembers) && HeightMembers(NoMembers) == 0
  {
  }

  lemma {:induction false} ArraySound(ok: string -> bool, limit: nat, t: string, depth: nat)
    requires t != "" && t[0] == '[' && WalkValue(ok, limit, t, depth).Ok?
    ensures var r := WalkValue(ok, limit, t, depth);
            && t == Unparse(r.value) + r.rest && Wf(r.value) && Convertible(ok, r.value)
            && depth + Height(r.value) <= limit + 1
    decreases |t|, 0
  {
    hide Skip, Lead, AllWs, WalkElements, UnparseElements, WfElements, ConvertibleElements, HeightElements;
    var t1 := Skip(t[1..]);
    NoWs();
    if t1 != "" && t1[0] == ']' {
      LeadSkip(t[1..]);
      NothingElements(ok);
      assert t == "[" + (Lead(t[1..]) + "]") + t1[1..] by { assert t == "[" + t[1..] && t1 == "]" + t1[1..]; }
    } else {
      ElementsSound(ok, limit, t[1..], depth);
      var r := WalkElements(ok, limit, t[1..], depth);
      assert t == ("[" + UnparseElements(r.value)) + r.rest by { assert t == "[" + t[1..]; }
    }
  }

  lemma NothingElements(ok: string -> bool)
    ensures WfElements(NoElements) && ConvertibleElements(ok, NoElements) && HeightElements(NoElements) == 0
  {
  }

  lemma NoWs()
    ensures AllWs("")
  {
  }

  /** A value with the whitespace and the separator behind it, put back together. */
  lemma MemberMade(head: string, m: Members, t: string, after: string, rest: string)
    requires m.Member? && head == m.pre + Quoted(m.key) + m.mid + ":" + m.gap && t == head + (Unparse(m.value) + after)
    requires after == if m.rest.NoMembers? then m.post + "}" + rest else m.post + "," + (UnparseMembers(m.rest) + rest)
    ensures t == UnparseMembers(m) + rest
  {
    hide Unparse, Quoted, UnparseMembers;
    MembersText(m);
    JoinMember(head, Unparse(m.value), m.post, "}", rest);
    JoinMember(head, Unparse(m.value), m.post, ",", UnparseMembers(m.rest) + rest);
    JoinRest(head + Unparse(m.value) + m.post, UnparseMembers(m.rest), rest);
  }

  lemma ElementMade(e: Elements, t: string, after: string, rest: string)
    requires e.Element? && t == e.pre + (Unparse(e.value) + after)
    requires after == if e.rest.NoElements? then e.post + "]" + rest
             else e.post + "," + (UnparseElements(e.rest) + rest)
    ensures t == UnparseElements(e) + rest
  {
    hide Unparse, UnparseElements;
    ElementsText(e);
    JoinMember(e.pre, Unparse(e.value), e.post, "]", rest);
    JoinMember(e.pre, Unparse(e.value), e.post, ",", UnparseElements(e.rest) + rest);
    JoinRest(e.pre + Unparse(e.value) + e.post, UnparseElements(e.rest), rest);
  }

  lemma {:induction false} MembersSound(ok: string -> bool, limit: nat, t: string, depth: nat)
    requires WalkMembers(ok, limit, t, depth).Ok?
    ensures var r := WalkMembers(ok, limit, t, depth);
            && r.value.Member? && t == UnparseMembers(r.value) + r.rest && WfMembers(r.value)
            && ConvertibleMembers(ok, r.value) && depth + HeightMembers(r.value) <= limit
    decreases |t|, 2
  {
    hide WalkKey, Behind, AllWs, WfString, Wf, Convertible, Height, Quoted, WalkValue, Unparse, UnparseMembers;
    KeySound(t);
    var k := WalkKey(t);
    ValueSound(ok, limit, k.rest, depth + 1);
    var v := WalkValue(ok, limit, k.rest, depth + 1);
    BehindSound(v.rest, '}');
    var s := Behind(v.rest, '}');
    if s.More? {
      MembersSound(ok, limit, s.rest, depth);
    }
    var r := WalkMembers(ok, limit, t, depth);
    MemberMade(k.pre + Quoted(k.key) + k.mid + ":" + k.gap, r.value, t, v.rest, r.rest);
    NothingMembers(ok);
  }

  lemma JoinRest(a: string, ms: string, rest: string)
    ensures a + "," + (ms + rest) == a + ("," + ms) + rest
  {
  }

  lemma {:induction false} ElementsSound(ok: string -> bool, limit: nat, t: string, depth: nat)
    requires WalkElements(ok, limit, t, depth).Ok?
    ensures var r := WalkElements(ok, limit, t, depth);
            && r.value.Element? && t == UnparseElements(r.value) + r.rest && WfElements(r.value)
            && ConvertibleElements(ok, r.value) && depth + HeightElements(r.value) <= limit
    decreases |t|, 2
  {
    hide Skip, Lead, Behind, AllWs, Wf, Convertible, Height, WalkValue, Unparse, UnparseElements;
    LeadSkip(t);
    ValueSound(ok, limit, Skip(t), depth + 1);
    var v := WalkValue(ok, limit, Skip(t), depth + 1);
    BehindSound(v.rest, ']');
    var s := Behind(v.rest, ']');
    if s.More? {
      ElementsSound(ok, limit, s.rest, depth);
    }
    var r := WalkElements(ok, limit, t, depth);
    ElementMade(r.value, t, v.rest, r.rest);
    NothingElements(ok);
  }

  // ---------- The walk accepts all JSON within the limit ----------

  /** A value starts with a character that is not whitespace, and which one tells its kind. */
  lemma FirstOf(v: Json)
    requires Wf(v)
    ensures var t := Unparse(v); t != "" && !IsWs(t[0]) && t[0] != '}' && t[0] != ']'
    ensures var c := Unparse(v)[0];
            && (v.Str? ==> c == '"') && (v.Obj? ==> c == '{') && (v.Arr? ==> c == '[')
            && (v.Num? ==> c == '-' || IsDigit(c)) && (v.Word? ==> c == v.text[0])
  {
    hide WfMembers, WfElements, UnparseMembers, UnparseElements, WfString;
  }

  lemma QuotedComplete(key: string, rest: string)
    requires WfString(key)
    ensures var t := (Quoted(key) + rest)[1..];
            && (Quoted(key) + rest)[0] == '"'
            && StringEnd(t) == Some(|key|) && t[..|key|] == key && t[|key| + 1..] == rest
  {
    hide StringEnd, WfString;
    assert (Quoted(key) + rest)[1..] == key + "\"" + rest;
    StringEndComplete(key, rest);
  }

  lemma ColonComplete(mid: string, gap: string, rest: string)
    requires AllWs(mid) && AllWs(gap) && (rest != "" ==> !IsWs(rest[0]))
    ensures var t2 := mid + (":" + (gap + rest));
            && Lead(t2) == mid && Skip(t2) == ":" + (gap + rest)
            && Lead(Skip(t2)[1..]) == gap && Skip(Skip(t2)[1..]) == rest
  {
    SkipWs(mid, ":" + (gap + rest));
    assert (":" + (gap + rest))[1..] == gap + rest;
    SkipWs(gap, rest);
    hide Skip, Lead;
  }

  lemma KeyComplete(pre: string, key: string, mid: string, gap: string, rest: string)
    requires AllWs(pre) && WfString(key) && AllWs(mid) && AllWs(gap) && (rest != "" ==> !IsWs(rest[0]))
    ensures WalkKey(pre + Quoted(key) + mid + ":" + gap + rest) == KeyAt(pre, key, mid, gap, rest)
  {
    hide Skip, Lead, StringEnd, AllWs, WfString, Quoted;
    var t2 := mid + (":" + (gap + rest));
    var t1 := Quoted(key) + t2;
    JoinKey(pre, Quoted(key), mid, gap, rest);
    QuotedComplete(key, t2);
    SkipWs(pre, t1);
    ColonComplete(mid, gap, rest);
    KeyOf(pre, t1, key, t2);
  }

  lemma KeyOf(pre: string, t1: string, key: string, t2: string)
    requires Skip(pre + t1) == t1 && Lead(pre + t1) == pre && t1 != "" && t1[0] == '"'
    requires StringEnd(t1[1..]) == Some(|key|) && t1[1..][..|key|] == key && t1[1..][|key| + 1..] == t2
    requires Skip(t2) != "" && Skip(t2)[0] == ':'
    ensures WalkKey(pre + t1) == KeyAt(pre, key, Lead(t2), Lead(Skip(t2)[1..]), Skip(Skip(t2)[1..]))
  {
    hide Skip, Lead, StringEnd;
  }

  lemma BehindComplete(post: string, c: char, rest: string, close: char)
    requires AllWs(post) && !IsWs(c) && (c == close || c == ',') && close != ','
    ensures Behind(post + [c] + rest, close) == if c == close then Closed(post, rest) else More(post, rest)
  {
    SkipWs(post, [c] + rest);
    assert post + [c] + rest == post + ([c] + rest) && ([c] + rest)[1..] == rest;
    hide Skip, Lead;
  }

  lemma EndsBehind(post: string, c: char, rest: string)
    requires AllWs(post) && (c == ',' || c == '}' || c == ']')
    ensures Ends(post + [c] + rest)
  {
  }

  lemma {:induction false} ValueComplete(ok: string -> bool, limit: nat, v: Json, rest: string, depth: nat)
    requires Wf(v) && Convertible(ok, v) && Ends(rest)
    ensures WalkValue(ok, limit, Unparse(v) + rest, depth) == if depth + Height(v) <= limit + 1 then Ok(v, rest)
            else Fallback
    decreases v, 1
  {
    FirstOf(v);
    if depth <= limit {
      match v {
        case Str(raw) => StringComplete(raw, rest);
        case Num(_, _, _, _) => NumberComplete(ok, v, rest);
        case Word(text) => WordComplete(text, rest);
        case Obj(_, _) => ObjectComplete(ok, limit, v, rest, depth);
        case Arr(_, _) => ArrayComplete(ok, limit, v, rest, depth);
      }
      hide WalkString, WalkNumber, WalkWord, Wf, Skip, Lead, NumText;
    }
  }

  lemma StringComplete(raw: string, rest: string)
    requires WfString(raw)
    ensures WalkString(Quoted(raw) + rest) == Ok(Str(raw), rest)
  {
    var t := Quoted(raw) + rest;
    assert t[1..] == raw + "\"" + rest;
    StringEndComplete(raw, rest);
    assert t[1..][..|raw|] == raw && t[1..][|raw| + 1..] == rest;
    hide StringEnd;
  }

  lemma NumberComplete(ok: string -> bool, v: Json, rest: string)
    requires v.Num? && WfNumber(v) && ok(NumText(v)) && Ends(rest)
    ensures WalkNumber(ok, NumText(v) + rest) == Ok(v, rest)
  {
    NumberAtComplete(v, rest);
    hide NumberAt, WfNumber, NumText;
    assert (NumText(v) + rest)[|NumText(v)|..] == rest;
  }

  lemma WordComplete(w: string, rest: string)
    requires IsLiteral(w)
    ensures WalkWord(w + rest, w) == Ok(Word(w), rest)
  {
    assert (w + rest)[..|w|] == w && (w + rest)[|w|..] == rest;
  }

  lemma {:induction false} ObjectComplete(ok: string -> bool, limit: nat, v: Json, rest: string, depth: nat)
    requires v.Obj? && Wf(v) && Convertible(ok, v) && depth <= limit
    ensures WalkValue(ok, limit, Unparse(v) + rest, depth) == if depth + Height(v) <= limit + 1 then Ok(v, rest)
            else Fallback
    decreases v, 0
  {
    hide Skip, Lead, AllWs, WalkMembers, UnparseMembers, WfMembers, ConvertibleMembers, HeightMembers;
    var t := Unparse(v) + rest;
    if v.ms.NoMembers? {
      assert t == "{" + (v.ws + ("}" + rest)) && t[1..] == v.ws + ("}" + rest);
      SkipWs(v.ws, "}" + rest);
      NothingMembers(ok);
      assert ("}" + rest)[1..] == rest;
    } else {
      assert t == "{" + (UnparseMembers(v.ms) + rest) && t[1..] == UnparseMembers(v.ms) + rest;
      MembersStart(v.ms, rest);
      MembersComplete(ok, limit, v.ms, rest, depth);
    }
  }

  lemma MembersStart(ms: Members, rest: string)
    requires ms.Member? && WfMembers(ms)
    ensures var t := Skip(UnparseMembers(ms) + rest); t != "" && t[0] == '"'
  {
    var tail := if ms.rest.NoMembers? then "}" else "," + UnparseMembers(ms.rest);
    var behind := Quoted(ms.key) + (ms.mid + ":" + ms.gap + Unparse(ms.value) + ms.post + tail + rest);
    assert UnparseMembers(ms) + rest == ms.pre + behind by {
      hide Quoted, Unparse, UnparseMembers;
      JoinStart(ms.pre, Quoted(ms.key), ms.mid, ms.gap, Unparse(ms.value), ms.post, tail, rest);
      MembersText(ms);
    }
    SkipWs(ms.pre, behind);
  }

  lemma MembersText(ms: Members)
    requires ms.Member?
    ensures UnparseMembers(ms) ==
            ms.pre + Quoted(ms.key) + ms.mid + ":" + ms.gap + Unparse(ms.value) + ms.post +
            (if ms.rest.NoMembers? then "}" else "," + UnparseMembers(ms.rest))
  {
  }

  lemma JoinStart(pre: string, key: string, mid: string, gap: string, v: string, post: string, tail: string,
      rest: string)
    ensures pre + (key + (mid + ":" + gap + v + post + tail + rest)) == pre + key + mid + ":" + gap + v + post + tail +
            rest
  {
  }

  lemma {:induction false} MembersComplete(ok: string -> bool, limit: nat, ms: Members, rest: string, depth: nat)
    requires ms.Member? && WfMembers(ms) && ConvertibleMembers(ok, ms)
    ensures WalkMembers(ok, limit, UnparseMembers(ms) + rest, depth) ==
            if depth + HeightMembers(ms) <= limit then Ok(ms, rest) else Fallback
    decreases ms
  {
    hide WalkValue, WalkKey, Behind, AllWs, WfString, Unparse, Quoted, Skip, Lead, Ends;
    var last := ms.rest.NoMembers?;
    var next := if last then rest else UnparseMembers(ms.rest) + rest;
    var c := if last then '}' else ',';
    var after := ms.post + [c] + next;
    var t := UnparseMembers(ms) + rest;
    assert t == ms.pre + Quoted(ms.key) + ms.mid + ":" + ms.gap + (Unparse(ms.value) + after) by {
      MembersText(ms);
      JoinAfter(ms.pre + Quoted(ms.key) + ms.mid + ":" + ms.gap, Unparse(ms.value), ms.post, c,
                if last then "" else UnparseMembers(ms.rest), rest);
    }
    FirstOf(ms.value);
    KeyComplete(ms.pre, ms.key, ms.mid, ms.gap, Unparse(ms.value) + after);
    EndsBehind(ms.post, c, next);
    ValueComplete(ok, limit, ms.value, after, depth + 1);
    BehindComplete(ms.post, c, next, '}');
    if !last {
      MembersComplete(ok, limit, ms.rest, rest, depth);
    }
  }

  lemma JoinAfter(head: string, v: string, post: string, c: char, more: string, rest: string)
    ensures head + v + post + ([c] + more) + rest == head + (v + (post + [c] + (more + rest)))
    ensures head + v + post + [c] + rest == head + (v + (post + [c] + rest))
  {
  }

  lemma {:induction false} ArrayComplete(ok: string -> bool, limit: nat, v: Json, rest: string, depth: nat)
    requires v.Arr? && Wf(v) && Convertible(ok, v) && depth <= limit
    ensures WalkValue(ok, limit, Unparse(v) + rest, depth) == if depth + Height(v) <= limit + 1 then Ok(v, rest)
            else Fallback
    decreases v, 0
  {
    hide Skip, Lead, AllWs, WalkElements, UnparseElements, WfElements, ConvertibleElements, HeightElements;
    var t := Unparse(v) + rest;
    if v.es.NoElements? {
      assert t == "[" + (v.ws + ("]" + rest)) && t[1..] == v.ws + ("]" + rest);
      SkipWs(v.ws, "]" + rest);
      NothingElements(ok);
      assert ("]" + rest)[1..] == rest;
    } else {
      assert t == "[" + (UnparseElements(v.es) + rest) && t[1..] == UnparseElements(v.es) + rest;
      ElementsStart(v.es, rest);
      ElementsComplete(ok, limit, v.es, rest, depth);
    }
  }

  lemma ElementsStart(es: Elements, rest: string)
    requires es.Element? && WfElements(es)
    ensures var t := Skip(UnparseElements(es) + rest); t != "" && t[0] != ']'
  {
    FirstOf(es.value);
    var tail := if es.rest.NoElements? then "]" else "," + UnparseElements(es.rest);
    var behind := Unparse(es.value) + (es.post + tail + rest);
    assert UnparseElements(es) + rest == es.pre + behind by {
      hide Unparse, UnparseElements;
      ElementsText(es);
    }
    SkipWs(es.pre, behind);
  }

  lemma ElementsText(es: Elements)
    requires es.Element?
    ensures UnparseElements(es) ==
            es.pre + Unparse(es.value) + es.post + (if es.rest.NoElements? then "]" else "," + UnparseElements(es.rest))
  {
  }

  lemma {:induction false} ElementsComplete(ok: string -> bool, limit: nat, es: Elements, rest: string, depth: nat)
    requires es.Element? && WfElements(es) && ConvertibleElements(ok, es)
    ensures WalkElements(ok, limit, UnparseElements(es) + rest, depth) ==
            if depth + HeightElements(es) <= limit then Ok(es, rest) else Fallback
    decreases es
  {
    hide WalkValue, Behind, AllWs, Unparse, Skip, Lead, Ends;
    var last := es.rest.NoElements?;
    var next := if last then rest else UnparseElements(es.rest) + rest;
    var c := if last then ']' else ',';
    var after := es.post + [c] + next;
    var t := UnparseElements(es) + rest;
    assert t == es.pre + (Unparse(es.value) + after) by {
      ElementsText(es);
      JoinAfter(es.pre, Unparse(es.value), es.post, c, if last then "" else UnparseElements(es.rest), rest);
    }
    FirstOf(es.value);
    SkipWs(es.pre, Unparse(es.value) + after);
    EndsBehind(es.post, c, next);
    ValueComplete(ok, limit, es.value, after, depth + 1);
    BehindComplete(es.post, c, next, ']');
    if !last {
      ElementsComplete(ok, limit, es.rest, rest, depth);
    }
  }

  // ---------- The grammar is unambiguous ----------

  function AnyNumber(): string -> bool { (_: string) => true }

  lemma {:induction false} AnyNumberConverts(v: Json)
    ensures Convertible(AnyNumber(), v)
  {
    match v {
      case Obj(_, ms) => AnyNumberConvertsMembers(ms);
      case Arr(_, es) => AnyNumberConvertsElements(es);
      case _ =>
    }
  }

  lemma {:induction false} AnyNumberConvertsMembers(ms: Members)
    ensures ConvertibleMembers(AnyNumber(), ms)
  {
    if ms.Member? {
      AnyNumberConverts(ms.value);
      AnyNumberConvertsMembers(ms.rest);
    }
  }

  lemma {:induction false} AnyNumberConvertsElements(es: Elements)
    ensures ConvertibleElements(AnyNumber(), es)
  {
    if es.Element? {
      AnyNumberConverts(es.value);
      AnyNumberConvertsElements(es.rest);
    }
  }

  /** A text has one parse: the walk, which finds both trees, is a function. */
  lemma OneParse(v: Json, behind: string, w: Json, after: string)
    requires Wf(v) && Wf(w) && Ends(behind) && Ends(after)
    requires Unparse(v) + behind == Unparse(w) + after
    ensures v == w && behind == after
  {
    hide *;
    var limit := Height(v) + Height(w);
    AnyNumberConverts(v);
    AnyNumberConverts(w);
    ValueComplete(AnyNumber(), limit, v, behind, 1);
    ValueComplete(AnyNumber(), limit, w, after, 1);
  }

  /** What the walk accepts, when something that can follow a value follows it. */
  lemma WalkIsGrammar(ok: string -> bool, limit: nat, t: string, v: Json, rest: string, depth: nat)
    requires Ends(rest)
    ensures WalkValue(ok, limit, t, depth) == Ok(v, rest) <==>
            t == Unparse(v) + rest && Wf(v) && Convertible(ok, v) && depth + Height(v) <= limit + 1
  {
    hide *;
    if WalkValue(ok, limit, t, depth) == Ok(v, rest) {
      ValueSound(ok, limit, t, depth);
    } else if t == Unparse(v) + rest && Wf(v) && Convertible(ok, v) {
      ValueComplete(ok, limit, v, rest, depth);
    }
  }
}
