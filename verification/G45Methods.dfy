/**
 The scanner as it runs (indexer/classify_g45_scan.go:166-669): cursors over one text and loops,
 each proved to compute what the functions over the remaining text say.
 */
module G45Methods {
  import opened IndexTypes
  import opened JsonGrammar
  import opened JsonWalk
  import opened Utf8
  import opened G45Scan
  import opened G45Extract

  datatype Outcome = VOk | VNoFields | VFallback

  /** A cursor result stands for a walk over the remaining text. */
  predicate Stands<T>(s: string, next: nat, v: Outcome, w: Walked<T>) {
    match w
    case Ok(_, rest) => v == VOk && next <= |s| && s[next..] == rest
    case NoFields => v == VNoFields
    case Fallback => v == VFallback
  }

  /** Two walks end alike. */
  predicate SameEnd<T>(a: Walked<T>, b: Walked<T>) {
    && (a.Ok? <==> b.Ok?) && (a.NoFields? <==> b.NoFields?) && (a.Ok? ==> a.rest == b.rest)
  }

  lemma From(s: string, i: nat, n: nat)
    requires i + n <= |s|
    ensures s[i..][n..] == s[i + n..] && (n > 0 ==> s[i..] != "" && s[i..][0] == s[i])
    ensures s[i..][..n] == s[i..i + n]
  {
  }

  /** g45skipWS. */
  method SkipWS(s: string, i: nat) returns (j: nat)
    requires i <= |s|
    ensures i <= j <= |s| && s[j..] == Skip(s[i..])
  {
    j := i;
    while j < |s| && IsWs(s[j])
      invariant i <= j <= |s| && Skip(s[j..]) == Skip(s[i..])
    {
      From(s, j, 1);
      j := j + 1;
    }
  }

  /** The four hex digits behind s[j] == 'u'. */
  method HexDigits(s: string, j: nat) returns (ok: bool)
    requires j + 4 < |s|
    ensures ok <==> IsHex(s[j + 1]) && IsHex(s[j + 2]) && IsHex(s[j + 3]) && IsHex(s[j + 4])
  {
    for k := 1 to 5
      invariant forall m | j < m < j + k :: IsHex(s[m])
    {
      if !IsHex(s[j + k]) {
        return false;
      }
    }
    return true;
  }

  /** One step of the string rules at position j. */
  lemma StringStep(s: string, j: nat)
    requires j < |s|
    ensures StringEnd(s[j..]) ==
            if s[j] == '"' then Some(0)
            else if s[j] == '\\' then
              if j + 1 >= |s| then None
              else if IsSimpleEscape(s[j + 1]) then Shift(StringEnd(s[j + 2..]), 2)
              else if s[j + 1] == 'u' && j + 5 < |s| && IsHex(s[j + 2]) && IsHex(s[j + 3]) && IsHex(s[j + 4])
                  && IsHex(s[j + 5])
              then Shift(StringEnd(s[j + 6..]), 6)
              else None
            else if s[j] < ' ' then None
            else Shift(StringEnd(s[j + 1..]), 1)
  {
    var t := s[j..];
    assert t[0] == s[j] && t[1..] == s[j + 1..];
    if j + 1 < |s| {
      assert t[1] == s[j + 1] && t[2..] == s[j + 2..];
      if j + 5 < |s| {
        assert t[2] == s[j + 2] && t[3] == s[j + 3] && t[4] == s[j + 4] && t[5] == s[j + 5] && t[6..] == s[j + 6..];
      }
    }
    hide IsHex, IsSimpleEscape, Shift;
  }

  lemma EscapedSoFar(s: string, cs: nat, j: nat, n: nat)
    requires cs <= j && 0 < n && j + n <= |s| && (n > 1 ==> s[j] == '\\')
    ensures Escaped(s[cs..j + n]) <==> Escaped(s[cs..j]) || s[j] == '\\'
  {
    assert s[cs..j + n] == s[cs..j] + [s[j]] + s[j + 1..j + n];
    assert n == 1 ==> s[j + 1..j + n] == "";
  }

  /** g45scanString at an opening quote. */
  method ScanString(s: string, i: nat) returns (cs: nat, ce: nat, esc: bool, next: nat, ok: bool)
    requires i < |s| && s[i] == '"'
    ensures var e := StringEnd(s[i + 1..]);
            && (ok <==> e.Some?)
            && (ok ==> cs == i + 1 && ce == cs + e.value && next == ce + 1 <= |s| && (esc <==> Escaped(s[cs..ce])))
  {
    hide StringEnd, Escaped, IsHex, IsSimpleEscape;
    cs, ce, esc, next, ok := i + 1, 0, false, 0, false;
    var j := i + 1;
    NotEscapedYet(s, j);
    while j < |s|
      invariant cs == i + 1 <= j <= |s| && !ok
      invariant StringEnd(s[cs..]) == Shift(StringEnd(s[j..]), j - cs)
      invariant esc <==> Escaped(s[cs..j])
      decreases |s| - j
    {
      StringStep(s, j);
      var n := 1;
      if s[j] == '"' {
        ce, next, ok := j, j + 1, true;
        return;
      } else if s[j] == '\\' {
        esc := true;
        if j + 1 >= |s| {
          return;
        }
        if IsSimpleEscape(s[j + 1]) {
          n := 2;
        } else if s[j + 1] == 'u' {
          if j + 5 >= |s| {
            return;
          }
          var hex := HexDigits(s, j + 1);
          if !hex {
            return;
          }
          n := 6;
        } else {
          return;
        }
      } else if s[j] < ' ' {
        return;
      }
      EscapedSoFar(s, cs, j, n);
      j := j + n;
    }
    NoString(s, j);
  }

  lemma NotEscapedYet(s: string, j: nat)
    requires j <= |s|
    ensures !Escaped(s[j..j]) && StringEnd(s[j..]) == Shift(StringEnd(s[j..]), 0)
  {
  }

  lemma NoString(s: string, j: nat)
    requires j == |s|
    ensures StringEnd(s[j..]).None?
  {
  }

  /** A run of digits; the loop stands three times in g45skipNumber. */
  method SkipDigits(s: string, i: nat) returns (j: nat)
    requires i <= |s|
    ensures j == i + Digits(s[i..])
  {
    j := i;
    while j < |s| && IsDigit(s[j])
      invariant i <= j <= |s| && i + Digits(s[i..]) == j + Digits(s[j..])
    {
      From(s, j, 1);
      j := j + 1;
    }
  }

  lemma Split(s: string, i: nat, j: nat)
    requires i <= j <= |s|
    ensures s[i..] == s[i..j] + s[j..]
  {
  }

  lemma WholeAt(s: string, j: nat)
    requires j <= |s|
    ensures j + Digits(s[j..]) <= |s|
    ensures WholePart(s[j..]) ==
            if j == |s| || !IsDigit(s[j]) then None
            else if s[j] == '0' then Some(s[j..j + 1]) else Some(s[j..j + Digits(s[j..])])
  {
    hide Digits;
    if j < |s| {
      From(s, j, 1);
      assert s[j] == '0' ==> s[j..j + 1] == "0";
      From(s, j, Digits(s[j..]));
    }
  }

  lemma FracAt(s: string, j: nat)
    requires j <= |s|
    ensures FracPart(s[j..]) ==
            if j == |s| || s[j] != '.' then Some(s[j..j])
            else if Digits(s[j + 1..]) == 0 then None else Some(s[j..j + 1 + Digits(s[j + 1..])])
  {
    hide Digits;
    assert s[j..j] == "";
    if j < |s| {
      From(s, j, 1);
      From(s, j, 1 + Digits(s[j + 1..]));
    }
  }

  lemma ExpAt(s: string, j: nat)
    requires j <= |s|
    ensures ExpPart(s[j..]) ==
            if j == |s| || (s[j] != 'e' && s[j] != 'E') then Some(s[j..j])
            else
              var k := if j + 1 < |s| && (s[j + 1] == '+' || s[j + 1] == '-') then j + 2 else j + 1;
              if Digits(s[k..]) == 0 then None else Some(s[j..k + Digits(s[k..])])
  {
    hide Digits;
    assert s[j..j] == "";
    if j < |s| {
      var k := if j + 1 < |s| && (s[j + 1] == '+' || s[j + 1] == '-') then j + 2 else j + 1;
      From(s, j, k - j);
      From(s, j, k - j + Digits(s[k..]));
      assert j + 1 < |s| ==> s[j..][1] == s[j + 1];
    }
  }

  lemma DigitsAt(s: string, j: nat)
    requires j <= |s|
    ensures Digits(s[j..]) == 0 <==> j == |s| || !IsDigit(s[j])
    ensures j + Digits(s[j..]) <= |s|
  {
  }

  /** Where the sign ends. */
  function Signed(s: string, i: nat): nat { if i < |s| && s[i] == '-' then i + 1 else i }

  lemma SignAt(s: string, i: nat)
    requires i <= |s|
    ensures var neg, a := s[i..] != "" && s[i..][0] == '-', Signed(s, i);
            i <= a <= |s| && s[a..] == if neg then s[i..][1..] else s[i..]
    ensures s[i..Signed(s, i)] == if s[i..] != "" && s[i..][0] == '-' then "-" else ""
  {
  }

  lemma NumberFails(s: string, i: nat, b: nat, c: nat)
    requires i <= Signed(s, i) <= b <= c <= |s|
    requires var a := Signed(s, i);
             || WholePart(s[a..]).None?
             || (WholePart(s[a..]) == Some(s[a..b])
                 && (FracPart(s[b..]).None? || (FracPart(s[b..]) == Some(s[b..c]) && ExpPart(s[c..]).None?)))
    ensures NumberAt(s[i..]).None?
  {
    hide *;
    var a := Signed(s, i);
    SignAt(s, i);
    Split(s, a, b);
    Split(s, b, c);
    NumberAtFails(s[i..], s[i..] != "" && s[i..][0] == '-', s[a..], s[a..b], s[b..], s[b..c], s[c..]);
  }

  lemma NumberEnds(s: string, i: nat, b: nat, c: nat, d: nat)
    requires i <= Signed(s, i) <= b <= c <= d <= |s|
    requires WholePart(s[Signed(s, i)..]) == Some(s[Signed(s, i)..b])
    requires FracPart(s[b..]) == Some(s[b..c]) && ExpPart(s[c..]) == Some(s[c..d])
    ensures NumberAt(s[i..]).Some? && NumText(NumberAt(s[i..]).value) == s[i..d]
  {
    hide WholePart, FracPart, ExpPart, NumberAt, Signed;
    var a := Signed(s, i);
    SignAt(s, i);
    Split(s, a, b);
    Split(s, b, c);
    Split(s, c, d);
    NumberAtOf(s[i..], s[i..] != "" && s[i..][0] == '-', s[a..], s[a..b], s[b..], s[b..c], s[c..], s[c..d]);
    FourPieces(s, i, a, b, c, d);
  }

  lemma FourPieces(s: string, i: nat, a: nat, b: nat, c: nat, d: nat)
    requires i <= a <= b <= c <= d <= |s|
    ensures s[i..a] + s[a..b] + s[b..c] + s[c..d] == s[i..d]
  {
  }

  /** The three parts of g45skipNumber: digits, fraction, exponent. */
  method SkipWhole(s: string, i: nat) returns (j: nat, ok: bool)
    requires i <= |s|
    ensures i <= j <= |s| && WholePart(s[i..]) == if ok then Some(s[i..j]) else None
  {
    hide WholePart, Digits;
    WholeAt(s, i);
    j, ok := i, true;
    if i >= |s| || !IsDigit(s[i]) {
      ok := false;
    } else if s[i] == '0' {
      j := i + 1;
    } else {
      j := SkipDigits(s, i);
    }
  }

  method SkipFraction(s: string, i: nat) returns (j: nat, ok: bool)
    requires i <= |s|
    ensures i <= j <= |s| && FracPart(s[i..]) == if ok then Some(s[i..j]) else None
  {
    hide FracPart, Digits;
    FracAt(s, i);
    j, ok := i, true;
    if i < |s| && s[i] == '.' {
      j := i + 1;
      DigitsAt(s, j);
      if j >= |s| || !IsDigit(s[j]) {
        ok := false;
      } else {
        j := SkipDigits(s, j);
      }
    }
  }

  method SkipExponent(s: string, i: nat) returns (j: nat, ok: bool)
    requires i <= |s|
    ensures i <= j <= |s| && ExpPart(s[i..]) == if ok then Some(s[i..j]) else None
  {
    hide ExpPart, Digits;
    ExpAt(s, i);
    j, ok := i, true;
    if i < |s| && (s[i] == 'e' || s[i] == 'E') {
      j := i + 1;
      if j < |s| && (s[j] == '+' || s[j] == '-') {
        j := j + 1;
      }
      DigitsAt(s, j);
      if j >= |s| || !IsDigit(s[j]) {
        ok := false;
      } else {
        j := SkipDigits(s, j);
      }
    }
  }

  /** g45skipNumber. */
  method SkipNumber(ok: string -> bool, s: string, i: nat) returns (next: nat, v: Outcome)
    requires i <= |s|
    ensures Stands(s, next, v, WalkNumber(ok, s[i..]))
  {
    hide WholePart, FracPart, ExpPart, NumberAt, NumText;
    next, v := 0, VNoFields;
    var a := i;
    if a < |s| && s[a] == '-' {
      a := a + 1;
    }
    var b, whole := SkipWhole(s, a);
    if !whole {
      NumberFails(s, i, b, b);
      return;
    }
    var c, frac := SkipFraction(s, b);
    if !frac {
      NumberFails(s, i, b, c);
      return;
    }
    var d, exp := SkipExponent(s, c);
    if !exp {
      NumberFails(s, i, b, c);
      return;
    }
    NumberEnds(s, i, b, c, d);
    From(s, i, d - i);
    if ok(s[i..d]) {
      next, v := d, VOk;
    }
  }

  // ---------- Values, objects, arrays ----------

  /** A key with its colon, up to the first character of the value. */
  method SkipKey(s: string, i: nat) returns (cs: nat, ce: nat, esc: bool, next: nat, ok: bool)
    requires i <= |s|
    ensures var k := WalkKey(s[i..]);
            && (ok <==> k.KeyAt?)
            && (ok ==> i <= cs <= ce <= |s| && k.key == s[cs..ce] && (esc <==> Escaped(k.key))
                       && i < next <= |s| && k.rest == s[next..])
  {
    hide StringEnd, Escaped, Skip, Lead;
    cs, ce, esc, next, ok := 0, 0, false, 0, false;
    var j := SkipWS(s, i);
    if j >= |s| || s[j] != '"' {
      return;
    }
    From(s, j, 1);
    cs, ce, esc, next, ok := ScanString(s, j);
    if !ok {
      return;
    }
    From(s, cs, ce - cs);
    From(s, cs, ce + 1 - cs);
    j := SkipWS(s, next);
    if j >= |s| || s[j] != ':' {
      ok := false;
      return;
    }
    From(s, j, 1);
    next := SkipWS(s, j + 1);
  }

  /** What stands behind a value, at the first character that is not whitespace. */
  lemma BehindAt(s: string, n: nat, j: nat, close: char)
    requires n <= |s| && j <= |s| && s[j..] == Skip(s[n..])
    ensures Behind(s[n..], close) ==
            if j == |s| then Broken
            else if s[j] == close then Closed(Lead(s[n..]), s[j + 1..])
            else if s[j] == ',' then More(Lead(s[n..]), s[j + 1..])
            else Broken
  {
    hide Skip, Lead;
    if j < |s| {
      From(s, j, 1);
    }
  }

  lemma MembersStep(ok: string -> bool, t: string, depth: nat)
    ensures var k, r := WalkKey(t), WalkMembers(ok, MAX_DEPTH, t, depth);
            if k.NoKey? then r.NoFields?
            else
              var w := WalkValue(ok, MAX_DEPTH, k.rest, depth + 1);
              if w.NoFields? then r.NoFields?
              else if w.Fallback? then r.Fallback?
              else
                var b := Behind(w.rest, '}');
                if b.Broken? then r.NoFields?
                else if b.Closed? then r.Ok? && r.rest == b.rest
                else SameEnd(r, WalkMembers(ok, MAX_DEPTH, b.rest, depth))
  {
    hide WalkKey, WalkValue, Behind;
  }

  lemma ElementsStep(ok: string -> bool, t: string, depth: nat)
    ensures var r := WalkElements(ok, MAX_DEPTH, t, depth);
            var w := WalkValue(ok, MAX_DEPTH, Skip(t), depth + 1);
            if w.NoFields? then r.NoFields?
            else if w.Fallback? then r.Fallback?
            else
              var b := Behind(w.rest, ']');
              if b.Broken? then r.NoFields?
              else if b.Closed? then r.Ok? && r.rest == b.rest
              else SameEnd(r, WalkElements(ok, MAX_DEPTH, b.rest, depth))
  {
    hide WalkValue, Behind, Skip, Lead;
  }

  /** The loop skips whitespace once more than the function does. */
  lemma MembersSkipped(ok: string -> bool, t: string, depth: nat)
    ensures SameEnd(WalkMembers(ok, MAX_DEPTH, t, depth), WalkMembers(ok, MAX_DEPTH, Skip(t), depth))
  {
    SkipTwice(t);
    MembersStep(ok, t, depth);
    MembersStep(ok, Skip(t), depth);
    hide WalkMembers, WalkValue, StringEnd, Lead, Skip, Behind;
  }

  lemma ElementsSkipped(ok: string -> bool, t: string, depth: nat)
    ensures SameEnd(WalkElements(ok, MAX_DEPTH, t, depth), WalkElements(ok, MAX_DEPTH, Skip(t), depth))
  {
    SkipTwice(t);
    ElementsStep(ok, t, depth);
    ElementsStep(ok, Skip(t), depth);
    hide WalkElements, WalkValue, Lead, Skip, Behind;
  }

  lemma SkipTwice(t: string)
    ensures Skip(Skip(t)) == Skip(t)
  {
  }

  lemma ObjectWalk(ok: string -> bool, t: string, depth: nat)
    requires t != "" && t[0] == '{' && depth <= MAX_DEPTH
    ensures var w, t1 := WalkValue(ok, MAX_DEPTH, t, depth), Skip(t[1..]);
            if t1 != "" && t1[0] == '}' then w.Ok? && w.rest == t1[1..]
            else var m := WalkMembers(ok, MAX_DEPTH, t1, depth);
                 (w.Ok? <==> m.Ok?) && (w.NoFields? <==> m.NoFields?) && (w.Ok? ==> w.rest == m.rest)
  {
    hide WalkMembers, WalkElements, WalkNumber, WalkString, WalkWord, Skip, Lead;
    MembersSkipped(ok, t[1..], depth);
  }

  lemma ArrayWalk(ok: string -> bool, t: string, depth: nat)
    requires t != "" && t[0] == '[' && depth <= MAX_DEPTH
    ensures var w, t1 := WalkValue(ok, MAX_DEPTH, t, depth), Skip(t[1..]);
            if t1 != "" && t1[0] == ']' then w.Ok? && w.rest == t1[1..]
            else var m := WalkElements(ok, MAX_DEPTH, t1, depth);
                 (w.Ok? <==> m.Ok?) && (w.NoFields? <==> m.NoFields?) && (w.Ok? ==> w.rest == m.rest)
  {
    hide WalkMembers, WalkElements, WalkNumber, WalkString, WalkWord, Skip, Lead;
    ElementsSkipped(ok, t[1..], depth);
  }

  /** g45skipObject. */
  method SkipObject(ok: string -> bool, s: string, i: nat, depth: nat) returns (next: nat, v: Outcome)
    requires i < |s| && s[i] == '{' && depth <= MAX_DEPTH
    ensures Stands(s, next, v, WalkValue(ok, MAX_DEPTH, s[i..], depth))
    decreases |s| - i, 0
  {
    hide WalkValue, WalkMembers, WalkKey, Behind, Skip, Lead, StringEnd, Escaped;
    next, v := 0, VNoFields;
    From(s, i, 1);
    ObjectWalk(ok, s[i..], depth);
    var j := SkipWS(s, i + 1);
    if j < |s| && s[j] == '}' {
      From(s, j, 1);
      next, v := j + 1, VOk;
      return;
    }
    while true
      invariant i < j <= |s| && next == 0 && v == VNoFields
      invariant var w, m := WalkValue(ok, MAX_DEPTH, s[i..], depth), WalkMembers(ok, MAX_DEPTH, s[j..], depth);
                (w.Ok? <==> m.Ok?) && (w.NoFields? <==> m.NoFields?) && (w.Ok? ==> w.rest == m.rest)
      decreases |s| - j
    {
      MembersStep(ok, s[j..], depth);
      var _, _, _, at, sok := SkipKey(s, j);
      if !sok {
        return;
      }
      var ni, inner := SkipValue(ok, s, at, depth + 1);
      if inner != VOk {
        v := inner;
        return;
      }
      j := SkipWS(s, ni);
      BehindAt(s, ni, j, '}');
      if j >= |s| {
        return;
      }
      if s[j] == ',' {
        j := j + 1;
      } else if s[j] == '}' {
        next, v := j + 1, VOk;
        return;
      } else {
        return;
      }
    }
  }

  /** g45skipArray. */
  method SkipArray(ok: string -> bool, s: string, i: nat, depth: nat) returns (next: nat, v: Outcome)
    requires i < |s| && s[i] == '[' && depth <= MAX_DEPTH
    ensures Stands(s, next, v, WalkValue(ok, MAX_DEPTH, s[i..], depth))
    decreases |s| - i, 0
  {
    hide WalkValue, WalkElements, Behind, Skip, Lead;
    next, v := 0, VNoFields;
    From(s, i, 1);
    ArrayWalk(ok, s[i..], depth);
    var j := SkipWS(s, i + 1);
    if j < |s| && s[j] == ']' {
      From(s, j, 1);
      next, v := j + 1, VOk;
      return;
    }
    while true
      invariant i < j <= |s| && next == 0 && v == VNoFields
      invariant var w, m := WalkValue(ok, MAX_DEPTH, s[i..], depth), WalkElements(ok, MAX_DEPTH, s[j..], depth);
                (w.Ok? <==> m.Ok?) && (w.NoFields? <==> m.NoFields?) && (w.Ok? ==> w.rest == m.rest)
      decreases |s| - j
    {
      ElementsStep(ok, s[j..], depth);
      var at := SkipWS(s, j);
      var ni, inner := SkipValue(ok, s, at, depth + 1);
      if inner != VOk {
        v := inner;
        return;
      }
      j := SkipWS(s, ni);
      BehindAt(s, ni, j, ']');
      if j >= |s| {
        return;
      }
      if s[j] == ',' {
        j := j + 1;
      } else if s[j] == ']' {
        next, v := j + 1, VOk;
        return;
      } else {
        return;
      }
    }
  }

  method HasWord(s: string, i: nat, w: string) returns (next: nat, v: Outcome)
    requires i <= |s|
    ensures Stands(s, next, v, WalkWord(s[i..], w))
  {
    next, v := 0, VNoFields;
    if i + |w| <= |s| {
      From(s, i, |w|);
      if s[i..i + |w|] == w {
        next, v := i + |w|, VOk;
      }
    }
  }

  /** g45skipValue. */
  method SkipValue(ok: string -> bool, s: string, i: nat, depth: nat) returns (next: nat, v: Outcome)
    requires i <= |s|
    ensures Stands(s, next, v, WalkValue(ok, MAX_DEPTH, s[i..], depth))
    ensures v == VOk ==> i < next
    decreases |s| - i, 1
  {
    hide WalkMembers, WalkElements, WalkNumber, WalkWord, StringEnd, Skip, Lead, Escaped;
    next, v := 0, VNoFields;
    if depth > MAX_DEPTH {
      v := VFallback;
      return;
    }
    if i >= |s| {
      return;
    }
    From(s, i, 1);
    if s[i] == '"' {
      var cs, ce, _, after, sok := ScanString(s, i);
      if sok {
        From(s, cs, ce + 1 - cs);
        next, v := after, VOk;
      }
    } else if s[i] == '-' || IsDigit(s[i]) {
      next, v := SkipNumber(ok, s, i);
    } else if s[i] == 't' {
      next, v := HasWord(s, i, "true");
    } else if s[i] == 'f' {
      next, v := HasWord(s, i, "false");
    } else if s[i] == 'n' {
      next, v := HasWord(s, i, "null");
    } else if s[i] == '{' {
      next, v := SkipObject(ok, s, i, depth);
    } else if s[i] == '[' {
      next, v := SkipArray(ok, s, i, depth);
    }
  }

  // ---------- The scan of the top level ----------

  /** g45IsASCII. */
  method IsAsciiText(t: string) returns (ascii: bool)
    ensures ascii == IsAscii(t)
  {
    for i := 0 to |t|
      invariant IsAscii(t[..i])
    {
      if t[i] as int >= 0x80 {
        return false;
      }
    }
    assert t[..|t|] == t;
    return true;
  }

  /** g45TargetKey. */
  method FindTargetKey(env: Env, key: string) returns (k: Key)
    ensures k == TargetKey(env, key)
  {
    hide EqualFold, IsAscii;
    if ExactKey(key) != KeyNone {
      return ExactKey(key);
    }
    var ascii := IsAsciiText(key);
    for i := 0 to |TARGETS|
      invariant forall m | 0 <= m < i :: (IsAscii(key) && |TARGETS[m]| != |key|) || !EqualFold(env, key, TARGETS[m])
    {
      if !(ascii && |TARGETS[i]| != |key|) && EqualFold(env, key, TARGETS[i]) {
        return KeyFold;
      }
    }
    return KeyNone;
  }

  lemma TopTextAt(env: Env, k: Key, s: string, i: nat, f: Fields)
    requires i < |s| && IsText(k)
    ensures var step := TopValue(env, k, s[i..], f);
            if s[i] != '"' then step == Stop(Defer)
            else if StringEnd(s[i + 1..]).None? then step == Stop(Nothing)
            else
              var e := i + 1 + StringEnd(s[i + 1..]).value;
              var raw := s[i + 1..e];
              step == if Escaped(raw) || !Valid(raw) then Stop(Defer) else Next(SetField(f, k, raw), s[e + 1..])
  {
    hide StringEnd, Escaped, Valid, SetField, IsText;
    From(s, i, 1);
    var e := StringEnd(s[i + 1..]);
    if e.Some? {
      From(s, i + 1, e.value);
      From(s, i + 1, e.value + 1);
    }
  }

  lemma TopOtherAt(env: Env, k: Key, s: string, i: nat, f: Fields, ni: nat, v: Outcome)
    requires i < |s| && !IsText(k) && Stands(s, ni, v, WalkValue(env.ok, MAX_DEPTH, s[i..], 1)) && (v == VOk ==> i < ni)
    ensures v == VOk ==> ni <= |s|
    ensures TopValue(env, k, s[i..], f) ==
            if v == VOk then Next(SetField(f, k, s[i..ni]), s[ni..])
                else Stop(if v == VFallback then Defer else Nothing)
  {
    hide WalkValue, SetField, IsText;
    if v == VOk {
      From(s, i, ni - i);
    }
  }

  /** The value of one top-level member: the new fields and the cursor, or a verdict. */
  method ScanValue(env: Env, k: Key, s: string, i: nat, f: Fields) returns (step: Step, next: nat)
    requires i < |s|
    ensures step == TopValue(env, k, s[i..], f)
    ensures step.Next? ==> i < next <= |s| && step.rest == s[next..]
  {
    hide *;
    if IsText(k) {
      TopTextAt(env, k, s, i, f);
      if s[i] != '"' {
        return Stop(Defer), 0;
      }
      var vcs, vce, vEsc, vni, vok := ScanString(s, i);
      if !vok {
        return Stop(Nothing), 0;
      }
      var val := s[vcs..vce];
      if vEsc || !Valid(val) {
        return Stop(Defer), 0;
      }
      return Next(SetField(f, k, val), s[vni..]), vni;
    }
    var ni, v := SkipValue(env.ok, s, i, 1);
    TopOtherAt(env, k, s, i, f, ni, v);
    if v != VOk {
      return Stop(if v == VFallback then Defer else Nothing), 0;
    }
    return Next(SetField(f, k, s[i..ni]), s[ni..]), ni;
  }

  lemma TopSkipped(env: Env, t: string, f: Fields)
    ensures TopScan(env, Skip(t), f) == TopScan(env, t, f)
  {
    SkipTwice(t);
    hide Skip, StringEnd, Escaped, TargetKey, TopValue, Behind;
  }

  lemma RestIsEmpty(s: string, i: nat, j: nat)
    requires i <= |s| && j <= |s| && s[j..] == Skip(s[i..])
    ensures Skip(s[i..]) == "" <==> j == |s|
  {
    assert |s[j..]| == |s| - j;
  }

  /** TopScan behind a key it goes on with. */
  function AfterKey(env: Env, k: Key, t: string, f: Fields): Verdict {
    var t3 := Skip(t);
    if t3 == "" || t3[0] != ':' || Skip(t3[1..]) == "" then Nothing
    else AfterValue(env, TopValue(env, k, Skip(t3[1..]), f))
  }

  /** TopScan's key at position q. */
  lemma TopKeyAt(env: Env, s: string, i: nat, q: nat, f: Fields)
    requires i <= |s| && q <= |s| && s[q..] == Skip(s[i..])
    ensures var v := TopScan(env, s[i..], f);
            if q == |s| || s[q] != '"' || StringEnd(s[q + 1..]).None? then v == Nothing
            else
              var ce := q + 1 + StringEnd(s[q + 1..]).value;
              var key := s[q + 1..ce];
              if Escaped(key) || TargetKey(env, key) == KeyFold then v == Defer
              else v == AfterKey(env, TargetKey(env, key), s[ce + 1..], f)
  {
    hide Skip, StringEnd, Escaped, TargetKey, TopValue, Behind;
    if q < |s| {
      From(s, q, 1);
      var e := StringEnd(s[q + 1..]);
      if e.Some? {
        From(s, q + 1, e.value);
        From(s, q + 1, e.value + 1);
      }
    }
  }

  /** One member up to the end of its value. */
  method ScanMember(env: Env, s: string, i: nat, f: Fields) returns (step: Step, next: nat)
    requires i <= |s|
    ensures TopScan(env, s[i..], f) == AfterValue(env, step)
    ensures step.Next? ==> i < next <= |s| && step.rest == s[next..]
  {
    hide TopScan, Skip, StringEnd, Escaped, TargetKey, TopValue, Behind;
    var q := SkipWS(s, i);
    TopKeyAt(env, s, i, q, f);
    if q >= |s| || s[q] != '"' {
      return Stop(Nothing), 0;
    }
    var cs, ce, keyEsc, ni, sok := ScanString(s, q);
    if !sok {
      return Stop(Nothing), 0;
    }
    if keyEsc {
      return Stop(Defer), 0;
    }
    var t := FindTargetKey(env, s[cs..ce]);
    if t == KeyFold {
      return Stop(Defer), 0;
    }
    var colon := SkipWS(s, ni);
    if colon >= |s| || s[colon] != ':' {
      return Stop(Nothing), 0;
    }
    From(s, colon, 1);
    var at := SkipWS(s, colon + 1);
    RestIsEmpty(s, colon + 1, at);
    if at >= |s| {
      return Stop(Nothing), 0;
    }
    step, next := ScanValue(env, t, s, at, f);
  }

  /** g45ScanMetaVerdict. */
  method ScanMetaVerdict(env: Env, s: string) returns (v: Verdict)
    ensures v == MetaVerdict(env, s)
  {
    hide TopScan, Skip, Lead, Behind;
    assert s[0..] == s;
    var i := SkipWS(s, 0);
    if i >= |s| || s[i] != '{' {
      return Nothing;
    }
    From(s, i, 1);
    TopSkipped(env, s[i + 1..], NO_FIELDS);
    i := SkipWS(s, i + 1);
    if i < |s| && s[i] == '}' {
      From(s, i, 1);
      var e := SkipWS(s, i + 1);
      RestIsEmpty(s, i + 1, e);
      return if e != |s| then Nothing else Fire(NO_FIELDS);
    }
    var f := NO_FIELDS;
    while true
      invariant i <= |s| && MetaVerdict(env, s) == TopScan(env, s[i..], f)
      decreases |s| - i
    {
      var step, after := ScanMember(env, s, i, f);
      if step.Stop? {
        return step.verdict;
      }
      f := step.fields;
      var sep := SkipWS(s, after);
      BehindAt(s, after, sep, '}');
      if sep >= |s| {
        return Nothing;
      }
      if s[sep] == ',' {
        i := sep + 1;
      } else if s[sep] == '}' {
        var e := SkipWS(s, sep + 1);
        RestIsEmpty(s, sep + 1, e);
        return if e != |s| then Nothing else Fire(f);
      } else {
        return Nothing;
      }
    }
  }

  /** g45ScanImagesRaw: "" and false when there is no such value. */
  method ScanImagesRaw(env: Env, s: string) returns (out: string, found: bool)
    ensures ImagesRaw(env, s) == if found then Some(out) else None
  {
    hide Skip, Lead, WalkKey, WalkValue, Escaped, Contains;
    out, found := "", false;
    if !Contains(s, IMAGES_KEY) {
      return;
    }
    assert s[0..] == s;
    var i := SkipWS(s, 0);
    if i >= |s| || s[i] != '{' {
      return;
    }
    From(s, i, 1);
    i := i + 1;
    while true
      invariant i <= |s| && ImagesRaw(env, s) == ImagesLoop(env, s[i..], if found then Some(out) else None)
      decreases |s| - i
    {
      var cs, ce, keyEsc, vs, ok := SkipKey(s, i);
      if !ok {
        return;
      }
      var next, v := SkipValue(env.ok, s, vs, 1);
      if v != VOk {
        return;
      }
      From(s, vs, next - vs);
      if !keyEsc && s[cs..ce] == "images" {
        out, found := s[vs..next], true;
      }
      i := SkipWS(s, next);
      RestIsEmpty(s, next, i);
      if i >= |s| || s[i] != ',' {
        return;
      }
      From(s, i, 1);
      i := i + 1;
    }
  }

  // ---------- The class being filled ----------

  /** The part of SCClass the metadata fills. */
  class SCClass {
    var name: string
    var desc: string
    var iconURL: string
    var image: string
    var altImage: string
    var audio: string
    var video: string
    var imagesJSON: string

    constructor ()
      ensures View() == ClassFields("", "", "", "", "", "", "", "")
    {
      name, desc, iconURL, image, altImage, audio, video, imagesJSON := "", "", "", "", "", "", "", "";
    }

    function View(): ClassFields
      reads this
    {
      ClassFields(name, desc, iconURL, image, altImage, audio, video, imagesJSON)
    }

    /** setImagesJSON. */
    method SetImagesJSON(env: Env, s: string)
      modifies this
      ensures View() == SetImages(env, old(View()), s)
    {
      if imagesJSON != "" {
        return;
      }
      var raw, ok := ScanImagesRaw(env, s);
      if ok {
        imagesJSON := raw;
      }
    }

    method FillTexts(env: Env, meta: Meta)
      modifies this
      ensures View() == TextsFromMap(env, old(View()), meta)
    {
      hide VarString, MetaString, Keep, FirstNonEmpty;
      name := if name == "" && "name" in meta then VarString(env, meta["name"]) else name;
      desc := if desc == "" && "description" in meta then VarString(env, meta["description"]) else desc;
      iconURL := if iconURL == "" && "icon" in meta then VarString(env, meta["icon"]) else iconURL;
      image := Keep(image, FirstNonEmpty(MetaString(env, meta, "image"), MetaString(env, meta, "backdropImage")));
      altImage := Keep(altImage, FirstNonEmpty(MetaString(env, meta, "alt-image"),
          MetaString(env, meta, "alt-backdropImage")));
      audio := Keep(audio, MetaString(env, meta, "audio"));
      video := Keep(video, MetaString(env, meta, "video"));
    }

    /** extractG45MetadataFallback: the full map decode. */
    method ExtractG45MetadataFallback(env: Env, s: string)
      modifies this
      ensures View() == Oracle(env, old(View()), s)
    {
      hide Unmarshal, TextsFromMap, SetImages, View;
      var decoded := Unmarshal(env, s);
      if decoded.None? {
        return;
      }
      FillTexts(env, decoded.value);
      SetImagesJSON(env, s);
    }

    /** extractG45MetadataString: whichever verdict fires, the fields are those of the full decode. */
    method ExtractG45MetadataString(env: Env, s: string)
      modifies this
      ensures View() == Oracle(env, old(View()), s)
    {
      hide MetaVerdict, Oracle, Keep, FirstNonEmpty;
      ExtractIsOracle(env, View(), s);
      var v := ScanMetaVerdict(env, s);
      match v {
        case Nothing =>
        case Defer => ExtractG45MetadataFallback(env, s);
        case Fire(f) =>
          name, desc, iconURL := Keep(name, f.name), Keep(desc, f.desc), Keep(iconURL, f.icon);
          image := Keep(image, FirstNonEmpty(f.image, f.backdropImage));
          altImage := Keep(altImage, FirstNonEmpty(f.altImage, f.altBackdropImage));
          audio, video, imagesJSON := Keep(audio, f.audio), Keep(video, f.video), Keep(imagesJSON, f.images);
      }
    }
  }
}
