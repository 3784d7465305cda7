/**
 Filling a contract's class fields from its G45 metadata (indexer/classify.go:700-862): the scanner
 in front of the full map decode leaves exactly what the full decode alone would leave.
 */
module G45Extract {
  import opened IndexTypes
  import opened JsonGrammar
  import opened JsonWalk
  import opened Utf8
  import opened G45Scan

  /** The fields of an SCClass the metadata can fill. */
  datatype ClassFields = ClassFields(name: string, desc: string, iconURL: string, image: string, altImage: string,
                             audio: string, video: string, imagesJSON: string)

  // ---------- The full decode ----------

  /** json.Unmarshal into a map: None on an error, an empty map for null. */
  function Unmarshal(env: Env, s: string): Option<Meta> {
    match WalkValue(env.ok, JSON_MAX_NESTING + 1, Skip(s), 1)
    case Ok(v, rest) => if Skip(rest) == "" && Nesting(v) <= JSON_MAX_NESTING then AsMap(env, v) else None
    case _ => None
  }

  function AsMap(env: Env, v: Json): Option<Meta> {
    if v.Obj? then Some(MapInto(env, map[], v.ms)) else if v == Word("null") then Some(map[]) else None
  }

  ghost predicate Decodable(env: Env, s: string, v: Json) {
    Document(s, v) && Convertible(env.ok, v) && Nesting(v) <= JSON_MAX_NESTING
  }

  lemma UnmarshalOn(env: Env, s: string, v: Json)
    requires Decodable(env, s, v)
    ensures Unmarshal(env, s) == AsMap(env, v)
  {
    var rest := DocumentRest(s, v);
    NestingBelowHeight(v);
    ValueComplete(env.ok, JSON_MAX_NESTING + 1, v, rest, 1);
    hide WalkValue, Skip, Unparse, Wf, Document, Convertible, Nesting, Height, AsMap, Ends;
  }

  lemma UnmarshalOnly(env: Env, s: string)
    requires Unmarshal(env, s).Some?
    ensures exists v :: Decodable(env, s, v)
  {
    hide WalkValue, Skip, Unparse, Wf, Document, Convertible, Nesting, Height, AsMap, Ends;
    var r := WalkValue(env.ok, JSON_MAX_NESTING + 1, Skip(s), 1);
    ValueSound(env.ok, JSON_MAX_NESTING + 1, Skip(s), 1);
    RestDocument(s, r.value, r.rest);
    assert Decodable(env, s, r.value);
  }

  /** The executable decoder accepts exactly the JSON documents, and gives the map of the only one there is. */
  lemma UnmarshalIsGrammar(env: Env, s: string, m: Meta)
    ensures Unmarshal(env, s) == Some(m) <==> exists v :: Decodable(env, s, v) && AsMap(env, v) == Some(m)
  {
    hide Unmarshal, Decodable, AsMap;
    if Unmarshal(env, s) == Some(m) {
      UnmarshalOnly(env, s);
      var v :| Decodable(env, s, v);
      UnmarshalOn(env, s, v);
    }
    if v :| Decodable(env, s, v) && AsMap(env, v) == Some(m) {
      UnmarshalOn(env, s, v);
    }
  }

  /** varString of a decoded value. */
  function VarString(env: Env, v: Json): string { if v.Str? then Unquote(env, v.raw) else env.render(v) }

  function MetaString(env: Env, m: Meta, key: string): string { if key in m then VarString(env, m[key]) else "" }

  function FirstNonEmpty(a: string, b: string): string { if a != "" then a else b }

  // ---------- The text of the images value ----------

  const IMAGES_KEY: string := "\"images\""

  predicate PrefixAt(s: string, i: nat, p: string) { i + |p| <= |s| && s[i..i + |p|] == p }

  /** strings.Contains. */
  predicate Contains(s: string, p: string) { exists i | 0 <= i <= |s| :: PrefixAt(s, i, p) }

  /** g45ScanImagesRaw without its pre-filter; the loop stops quietly at whatever it cannot walk. */
  function ImagesLoop(env: Env, t: string, found: Option<string>): Option<string>
    decreases |t|
  {
    match WalkKey(t)
    case NoKey => found
    case KeyAt(_, key, _, _, behind) =>
      match WalkValue(env.ok, MAX_DEPTH, behind, 1)
      case NoFields => found
      case Fallback => found
      case Ok(v, after) =>
        var now := if !Escaped(key) && key == "images" then Some(behind[..|behind| - |after|]) else found;
        var t5 := Skip(after);
        if t5 == "" || t5[0] != ',' then now else ImagesLoop(env, t5[1..], now)
  }

  function ImagesAnywhere(env: Env, s: string): Option<string> {
    var t := Skip(s);
    if t == "" || t[0] != '{' then None else ImagesLoop(env, t[1..], None)
  }

  function ImagesRaw(env: Env, s: string): Option<string> {
    if !Contains(s, IMAGES_KEY) then None else ImagesAnywhere(env, s)
  }

  /** setImagesJSON. */
  function SetImages(env: Env, sc: ClassFields, s: string): ClassFields {
    if sc.imagesJSON != "" || ImagesRaw(env, s).None? then sc else sc.(imagesJSON := ImagesRaw(env, s).value)
  }

  // ---------- The two ways to fill a class ----------

  /** A field keeps what it has. */
  function Keep(was: string, text: string): string { if was == "" then text else was }

  /** The string fields as extractG45MetadataFallback fills them. */
  function TextsFromMap(env: Env, sc: ClassFields, m: Meta): ClassFields {
    ClassFields(
      if sc.name == "" && "name" in m then VarString(env, m["name"]) else sc.name,
      if sc.desc == "" && "description" in m then VarString(env, m["description"]) else sc.desc,
      if sc.iconURL == "" && "icon" in m then VarString(env, m["icon"]) else sc.iconURL,
      Keep(sc.image, FirstNonEmpty(MetaString(env, m, "image"), MetaString(env, m, "backdropImage"))),
      Keep(sc.altImage, FirstNonEmpty(MetaString(env, m, "alt-image"), MetaString(env, m, "alt-backdropImage"))),
      Keep(sc.audio, MetaString(env, m, "audio")),
      Keep(sc.video, MetaString(env, m, "video")),
      sc.imagesJSON)
  }

  function FillFromMap(env: Env, sc: ClassFields, m: Meta, s: string): ClassFields {
    SetImages(env, TextsFromMap(env, sc, m), s)
  }

  function Oracle(env: Env, sc: ClassFields, s: string): ClassFields {
    match Unmarshal(env, s)
    case None => sc
    case Some(m) => FillFromMap(env, sc, m, s)
  }

  function FillFromFields(sc: ClassFields, f: Fields): ClassFields {
    ClassFields(Keep(sc.name, f.name), Keep(sc.desc, f.desc), Keep(sc.iconURL, f.icon),
            Keep(sc.image, FirstNonEmpty(f.image, f.backdropImage)),
            Keep(sc.altImage, FirstNonEmpty(f.altImage, f.altBackdropImage)),
            Keep(sc.audio, f.audio), Keep(sc.video, f.video), Keep(sc.imagesJSON, f.images))
  }

  /** extractG45MetadataString. */
  function Extract(env: Env, sc: ClassFields, s: string): ClassFields {
    match MetaVerdict(env, s)
    case Fire(f) => FillFromFields(sc, f)
    case Nothing => sc
    case Defer => Oracle(env, sc, s)
  }

  // ---------- Both image extractors find the same text ----------

  /** The members the second pass reaches: it stops in front of a value nested too deeply. */
  function Reached(ms: Members): Members {
    if ms.NoMembers? then NoMembers
    else if Height(ms.value) > MAX_DEPTH then NoMembers
    else ms.(rest := Reached(ms.rest))
  }

  /** The text of the last member written "images". */
  function LastImages(ms: Members, found: Option<string>): Option<string>
    decreases ms
  {
    if ms.NoMembers? then found
    else LastImages(ms.rest, if ms.key == "images" then Some(Unparse(ms.value)) else found)
  }

  lemma {:induction false} ImagesOfMembers(env: Env, ms: Members, rest: string, found: Option<string>)
    requires ms.Member? && WfMembers(ms) && ConvertibleMembers(env.ok, ms)
    ensures ImagesLoop(env, UnparseMembers(ms) + rest, found) == LastImages(Reached(ms), found)
    decreases ms
  {
    hide WalkValue, WalkKey, AllWs, WfString, Unparse, Quoted, Skip, Lead, Ends, Wf, Convertible, Height;
    var last := ms.rest.NoMembers?;
    var next := if last then rest else UnparseMembers(ms.rest) + rest;
    var c := if last then '}' else ',';
    var after := ms.post + [c] + next;
    assert UnparseMembers(ms) + rest == ms.pre + Quoted(ms.key) + ms.mid + ":" + ms.gap +
           (Unparse(ms.value) + after) by {
      MembersText(ms);
      JoinAfter(ms.pre + Quoted(ms.key) + ms.mid + ":" + ms.gap, Unparse(ms.value), ms.post, c,
                if last then "" else UnparseMembers(ms.rest), rest);
    }
    FirstOf(ms.value);
    KeyComplete(ms.pre, ms.key, ms.mid, ms.gap, Unparse(ms.value) + after);
    EndsBehind(ms.post, c, next);
    ValueComplete(env.ok, MAX_DEPTH, ms.value, after, 1);
    AfterPost(ms.post, c, next);
    var behind := Unparse(ms.value) + after;
    assert behind[..|behind| - |after|] == Unparse(ms.value);
    var now := if ms.key == "images" then Some(Unparse(ms.value)) else found;
    if !last && Height(ms.value) <= MAX_DEPTH {
      ImagesOfMembers(env, ms.rest, rest, now);
    }
  }

  lemma AfterPost(post: string, c: char, next: string)
    requires AllWs(post) && !IsWs(c)
    ensures Skip(post + [c] + next) == [c] + next && ([c] + next)[1..] == next
  {
    SkipWs(post, [c] + next);
    assert post + [c] + next == post + ([c] + next);
  }

  /** The second pass on a valid object: the last plain "images" among the members it reaches. */
  lemma ImagesOfObject(env: Env, s: string, v: Json)
    requires v.Obj? && Document(s, v) && Convertible(env.ok, v)
    ensures ImagesAnywhere(env, s) == LastImages(Reached(v.ms), None)
  {
    hide Document, Skip, ImagesLoop, UnparseMembers, LastImages, Reached, ConvertibleMembers, WfMembers, Ends;
    var rest := DocumentRest(s, v);
    if v.ms.NoMembers? {
      ImagesOfNone(env, v.ws, rest);
      assert Skip(s)[1..] == v.ws + "}" + rest;
    } else {
      assert Skip(s)[1..] == UnparseMembers(v.ms) + rest;
      ImagesOfMembers(env, v.ms, rest, None);
    }
  }

  lemma ImagesOfNone(env: Env, ws: string, rest: string)
    requires AllWs(ws)
    ensures ImagesLoop(env, ws + "}" + rest, None) == None == LastImages(Reached(NoMembers), None)
  {
    SkipWs(ws, "}" + rest);
    assert ws + "}" + rest == ws + ("}" + rest);
    hide Skip, Lead;
  }

  /** It reaches every member exactly when none is nested too deeply. */
  lemma {:induction false} ReachesAll(ms: Members)
    ensures Reached(ms) == ms <==> HeightMembers(ms) <= MAX_DEPTH
  {
    if ms.Member? {
      ReachesAll(ms.rest);
    }
  }

  /** The members behind the first value nested too deeply, that one included. */
  function Unreached(ms: Members): Members {
    if ms.NoMembers? then NoMembers
    else if Height(ms.value) > MAX_DEPTH then ms
    else Unreached(ms.rest)
  }

  lemma {:induction false} ImagesInTwoParts(ms: Members, found: Option<string>)
    ensures var late := LastImages(Unreached(ms), None);
            LastImages(ms, found) == if late.Some? then late else LastImages(Reached(ms), found)
    decreases ms
  {
    if ms.Member? {
      if Height(ms.value) > MAX_DEPTH {
        LaterImagesWin(ms, found);
      } else {
        ImagesInTwoParts(ms.rest, if ms.key == "images" then Some(Unparse(ms.value)) else found);
      }
    }
  }

  lemma {:induction false} LaterImagesWin(ms: Members, found: Option<string>)
    ensures LastImages(ms, found) == if LastImages(ms, None).Some? then LastImages(ms, None) else found
    decreases ms
  {
    if ms.Member? {
      var now := if ms.key == "images" then Some(Unparse(ms.value)) else found;
      LaterImagesWin(ms.rest, now);
      LaterImagesWin(ms.rest, if ms.key == "images" then now else None);
    }
  }

  // ---------- The pre-filter ----------

  lemma ContainsBehind(a: string, t: string, p: string)
    requires Contains(t, p)
    ensures Contains(a + t, p)
  {
    var i :| 0 <= i <= |t| && PrefixAt(t, i, p);
    assert (a + t)[|a| + i..|a| + i + |p|] == t[i..i + |p|];
    assert PrefixAt(a + t, |a| + i, p);
  }

  lemma ContainsAfter(a: string, p: string, b: string)
    ensures Contains(a + p + b, p)
  {
    assert (a + p + b)[|a|..|a| + |p|] == p;
    assert PrefixAt(a + p + b, |a|, p);
  }

  /** What the loop finds stands in the text with its quotes. */
  lemma {:induction false} FoundIsContained(env: Env, t: string, found: Option<string>)
    requires ImagesLoop(env, t, found) != found
    ensures Contains(t, IMAGES_KEY)
    decreases |t|
  {
    hide WalkKey, WalkValue, Skip, Contains, AllWs, WfString, Escaped, Unparse, Wf, Convertible;
    var k := WalkKey(t);
    KeySound(t);
    var head := k.pre + Quoted(k.key) + k.mid + ":" + k.gap;
    if k.key == "images" {
      assert Quoted("images") == IMAGES_KEY;
      assert t == k.pre + IMAGES_KEY + (k.mid + ":" + k.gap + k.rest);
      ContainsAfter(k.pre, IMAGES_KEY, k.mid + ":" + k.gap + k.rest);
    } else {
      var after := WalkValue(env.ok, MAX_DEPTH, k.rest, 1).rest;
      ValueSound(env.ok, MAX_DEPTH, k.rest, 1);
      var skipped := t[..|t| - |Skip(after)| + 1];
      AfterIsSuffix(t, head, k.rest, after);
      assert t == skipped + Skip(after)[1..];
      FoundIsContained(env, Skip(after)[1..], found);
      ContainsBehind(skipped, Skip(after)[1..], IMAGES_KEY);
    }
  }

  lemma AfterIsSuffix(t: string, head: string, behind: string, after: string)
    requires t == head + behind && |after| <= |behind| && behind[|behind| - |after|..] == after && Skip(after) != ""
    ensures |Skip(after)| <= |t| && t[|t| - |Skip(after)| + 1..] == Skip(after)[1..]
  {
    LeadSkip(after);
    hide Skip, Lead, AllWs;
  }

  /** The pre-filter has no false negatives, on any input. */
  lemma FilterFindsAll(env: Env, s: string)
    ensures ImagesRaw(env, s) == ImagesAnywhere(env, s)
  {
    hide ImagesLoop, Skip, Contains;
    var t := Skip(s);
    if ImagesAnywhere(env, s).Some? {
      FoundIsContained(env, t[1..], None);
      LeadSkip(s);
      assert s == (Lead(s) + "{") + t[1..] by { assert t == "{" + t[1..]; }
      ContainsBehind(Lead(s) + "{", t[1..], IMAGES_KEY);
    }
  }

  /**
   The second pass returns the last value spelled "images" exactly when no such member follows a value
   nested too deeply, or the last such one repeats the text of the last before it.
   */
  lemma SpelledImagesExactly(env: Env, s: string, v: Json)
    requires v.Obj? && Document(s, v) && Convertible(env.ok, v)
    ensures var late, early := LastImages(Unreached(v.ms), None), LastImages(Reached(v.ms), None);
            ImagesRaw(env, s) == LastImages(v.ms, None) <==> late.None? || late == early
  {
    hide Document, Convertible, LastImages, Reached, Unreached, ImagesRaw, ImagesAnywhere;
    FilterFindsAll(env, s);
    ImagesOfObject(env, s, v);
    ImagesInTwoParts(v.ms, None);
  }

  /**
   The decoded images members that the pass does not take, since the last one it takes: those whose key is
   escaped, and those from the first value nested too deeply on.
   */
  function Missed(env: Env, ms: Members, reach: bool, late: Option<string>): Option<string>
    decreases ms
  {
    if ms.NoMembers? then late
    else
      var still := reach && Height(ms.value) <= MAX_DEPTH;
      Missed(env, ms.rest, still,
             if still && ms.key == "images" then None
             else if Unquote(env, ms.key) == "images" then Some(Unparse(ms.value))
             else late)
  }

  function Later(late: Option<string>, found: Option<string>): Option<string> { if late.Some? then late else found }

  lemma ImagesAfter(env: Env, m: Meta, key: string, v: Json)
    ensures ImagesOfMap(m[Unquote(env, key) := v]) ==
            if Unquote(env, key) == "images" then Some(Unparse(v)) else ImagesOfMap(m)
    ensures key == "images" ==> Unquote(env, key) == "images"
  {
    PlainImages(env);
    hide Unquote, Unparse;
  }

  lemma {:induction false} DecodedWhenCut(env: Env, m: Meta, ms: Members, late: Option<string>, found: Option<string>)
    requires ImagesOfMap(m) == Later(late, found)
    ensures ImagesOfMap(MapInto(env, m, ms)) == Later(Missed(env, ms, false, late), found)
    decreases ms
  {
    if ms.Member? {
      ImagesAfter(env, m, ms.key, ms.value);
      hide Unquote, Unparse, ImagesOfMap, Height;
      DecodedWhenCut(env, m[Unquote(env, ms.key) := ms.value], ms.rest,
                     if Unquote(env, ms.key) == "images" then Some(Unparse(ms.value)) else late, found);
    }
  }

  /** The decoded value is the last missed member's, or else the last taken one's. */
  lemma {:induction false} DecodedInTwoParts(env: Env, m: Meta, ms: Members, late: Option<string>,
      found: Option<string>)
    requires ImagesOfMap(m) == Later(late, found)
    ensures ImagesOfMap(MapInto(env, m, ms)) == Later(Missed(env, ms, true, late), LastImages(Reached(ms), found))
    decreases ms
  {
    if ms.Member? {
      ImagesAfter(env, m, ms.key, ms.value);
      hide Unquote, Unparse, ImagesOfMap, Height;
      var m' := m[Unquote(env, ms.key) := ms.value];
      var decoded := Unquote(env, ms.key) == "images";
      if Height(ms.value) > MAX_DEPTH {
        DecodedWhenCut(env, m', ms.rest, if decoded then Some(Unparse(ms.value)) else late, found);
      } else if ms.key == "images" {
        DecodedInTwoParts(env, m', ms.rest, None, Some(Unparse(ms.value)));
      } else {
        DecodedInTwoParts(env, m', ms.rest, if decoded then Some(Unparse(ms.value)) else late, found);
      }
    }
  }

  /**
   The second pass returns the images value of the full decode of a valid object exactly when it misses no
   images member behind the last one it takes, or the last missed one has the same text. It misses members
   with an escaped key, and all members from the first value nested too deeply on.
   */
  lemma ImagesExactly(env: Env, s: string, v: Json)
    requires v.Obj? && Document(s, v) && Convertible(env.ok, v)
    ensures var late, early := Missed(env, v.ms, true, None), LastImages(Reached(v.ms), None);
            ImagesRaw(env, s) == ImagesOfMap(MapInto(env, map[], v.ms)) <==> late.None? || late == early
  {
    NoTextsYet();
    hide Document, Convertible, LastImages, Reached, Missed, MapInto, ImagesRaw, ImagesAnywhere, ImagesOfMap;
    hide PlainTexts;
    FilterFindsAll(env, s);
    ImagesOfObject(env, s, v);
    DecodedInTwoParts(env, map[], v.ms, None, None);
  }

  // ---------- A text on which the second pass returns a stale value ----------

  /** n arrays inside each other. */
  function Nested(n: nat): Json
    requires n > 0
  {
    Arr("", if n == 1 then NoElements else Element("", Nested(n - 1), "", NoElements))
  }

  lemma {:induction false} NestedShape(env: Env, n: nat)
    requires n > 0
    ensures Wf(Nested(n)) && Convertible(env.ok, Nested(n)) && Height(Nested(n)) == n && Nesting(Nested(n)) == n
  {
    if n > 1 {
      NestedShape(env, n - 1);
    }
  }

  function Images(v: Json, rest: Members): Members { Member("", "images", "", "", v, "", rest) }

  /** {"images":true,"x":v,"images":false} */
  function Between(v: Json): Json {
    Obj("", Images(Word("true"), Member("", "x", "", "", v, "", Images(Word("false"), NoMembers))))
  }

  /** With 1001 arrays inside each other in the middle. */
  function DeepBetween(): Json { Between(Nested(MAX_DEPTH + 1)) }

  lemma MemberShape(env: Env, key: string, v: Json, rest: Members)
    requires WfString(key) && Wf(v) && WfMembers(rest) && Convertible(env.ok, v) && ConvertibleMembers(env.ok, rest)
    ensures var ms := Member("", key, "", "", v, "", rest);
            && WfMembers(ms) && ConvertibleMembers(env.ok, ms)
            && NestingMembers(ms) == Max(Nesting(v), NestingMembers(rest))
  {
    hide WfString, Wf, Convertible, Nesting;
  }

  lemma WordShape(env: Env, text: string)
    requires IsLiteral(text)
    ensures var v := Word(text);
            Wf(v) && Convertible(env.ok, v) && Nesting(v) == 0 && Height(v) == 1 && Unparse(v) == text
  {
  }

  lemma BetweenShape(env: Env, v: Json)
    requires Wf(v) && Convertible(env.ok, v)
    ensures var w := Between(v);
            && w.Obj? && Wf(w) && Convertible(env.ok, w) && Nesting(w) == 1 + Nesting(v)
  {
    var last := Images(Word("false"), NoMembers);
    var middle := Member("", "x", "", "", v, "", last);
    NothingMembers(env.ok);
    WordShape(env, "true");
    WordShape(env, "false");
    PlainKeys();
    assert NestingMembers(NoMembers) == 0 && AllWs("");
    hide WfString, WfMembers, ConvertibleMembers, NestingMembers;
    MemberShape(env, "images", Word("false"), NoMembers);
    MemberShape(env, "x", v, last);
    MemberShape(env, "images", Word("true"), middle);
  }

  lemma PlainKeys()
    ensures WfString("images") && WfString("x")
  {
    assert "images"[1..] == "mages" && "mages"[1..] == "ages" && "ages"[1..] == "ges" && "ges"[1..] == "es"
           && "es"[1..] == "s";
    assert "s"[1..] == "" && "x"[1..] == "";
  }

  lemma WholeText(v: Json)
    requires Wf(v)
    ensures Document(Unparse(v), v)
  {
    hide Unparse, Wf;
    assert Unparse(v) == "" + Unparse(v) + "";
    assert Around(Unparse(v), "", v, "");
  }

  lemma BetweenImages(env: Env, v: Json)
    requires Height(v) > MAX_DEPTH
    ensures var ms := Between(v).ms;
            && LastImages(Reached(ms), None) == Some("true") && LastImages(Unreached(ms), None) == Some("false")
  {
    var middle := Member("", "x", "", "", v, "", Images(Word("false"), NoMembers));
    WordShape(env, "true");
    WordShape(env, "false");
    hide Height, Unparse;
    assert Reached(middle) == NoMembers && Unreached(middle) == middle;
    assert LastImages(Images(Word("true"), NoMembers), None) == Some("true");
    assert LastImages(Images(Word("false"), NoMembers), None) == Some("false");
  }

  /**
   The full decode takes this text and reads images as false; the second pass stops in front of the deep value
   and returns the earlier true, which the class keeps. A walk cut short gives a stale value and not an absent one.
   */
  lemma StaleImages(env: Env, sc: ClassFields)
    requires sc.imagesJSON == ""
    ensures var v := DeepBetween(); var s := Unparse(v);
            && Unmarshal(env, s) == Some(MapInto(env, map[], v.ms))
            && ImagesOfMap(MapInto(env, map[], v.ms)) == Some("false")
            && ImagesRaw(env, s) == Some("true") && Extract(env, sc, s).imagesJSON == "true"
  {
    hide *;
    NestedShape(env, MAX_DEPTH + 1);
    NamedDeep();
    StaleBetween(env, sc, Nested(MAX_DEPTH + 1));
  }

  lemma NamedDeep()
    ensures DeepBetween() == Between(Nested(MAX_DEPTH + 1)) && MAX_DEPTH + 1 < JSON_MAX_NESTING && DeepBetween().Obj?
  {
    hide Nested;
  }

  lemma StaleBetween(env: Env, sc: ClassFields, deep: Json)
    requires Wf(deep) && Convertible(env.ok, deep) && Height(deep) > MAX_DEPTH && Nesting(deep) < JSON_MAX_NESTING
    requires sc.imagesJSON == ""
    ensures var v := Between(deep); var s := Unparse(v);
            && v.Obj? && Unmarshal(env, s) == Some(MapInto(env, map[], v.ms))
            && ImagesOfMap(MapInto(env, map[], v.ms)) == Some("false")
            && ImagesRaw(env, s) == Some("true") && Extract(env, sc, s).imagesJSON == "true"
  {
    hide Between, Unparse, MapInto, Wf, Convertible, Nesting, Height, Unmarshal, Extract, FillFromMap, ImagesOfMap;
    hide ImagesRaw, ImagesAnywhere, LastImages, Reached, Unreached, Document, Oracle;
    var v := Between(deep);
    BetweenShape(env, deep);
    BetweenImages(env, deep);
    BetweenMap(env, deep);
    WholeText(v);
    FilterFindsAll(env, Unparse(v));
    ImagesOfObject(env, Unparse(v), v);
    UnmarshalOn(env, Unparse(v), v);
    ExtractIsOracle(env, sc, Unparse(v));
    FilledImages(env, sc, Unparse(v));
  }

  lemma BetweenMap(env: Env, v: Json)
    ensures ImagesOfMap(MapInto(env, map[], Between(v).ms)) == Some("false")
  {
    PlainImages(env);
    WordShape(env, "false");
    hide Unquote, Unparse;
    var m1: Meta := map["images" := Word("true")];
    var m2 := m1[Unquote(env, "x") := v];
    var last := Images(Word("false"), NoMembers);
    assert MapInto(env, m2["images" := Word("false")], NoMembers) == m2["images" := Word("false")];
    assert MapInto(env, m2, last) == m2["images" := Word("false")];
    assert MapInto(env, m1, Member("", "x", "", "", v, "", last)) == MapInto(env, m2, last);
  }

  /** {"images":true,"\\u0069mages":false}, in which the second key is escaped. */
  function EscapedKey(): Json {
    Obj("", Images(Word("true"), Member("", ESCAPED_IMAGES, "", "", Word("false"), "", NoMembers)))
  }

  const ESCAPED_IMAGES: string := "\\u0069mages"

  lemma EscapedKeyShape(env: Env)
    ensures var v := EscapedKey();
            && v.Obj? && Wf(v) && Convertible(env.ok, v) && Nesting(v) == 1
            && LastImages(Reached(v.ms), None) == Some("true")
  {
    var last := Member("", ESCAPED_IMAGES, "", "", Word("false"), "", NoMembers);
    NothingMembers(env.ok);
    WordShape(env, "true");
    WordShape(env, "false");
    PlainKeys();
    EscapedWf();
    assert NestingMembers(NoMembers) == 0 && AllWs("");
    assert LastImages(Reached(last), Some("true")) == Some("true");
    hide WfString, WfMembers, ConvertibleMembers, NestingMembers, Unparse, Height;
    MemberShape(env, ESCAPED_IMAGES, Word("false"), NoMembers);
    MemberShape(env, "images", Word("true"), last);
  }

  lemma EscapedWf()
    ensures WfString(ESCAPED_IMAGES) && Escaped(ESCAPED_IMAGES) && ESCAPED_IMAGES != "images"
  {
    var t := ESCAPED_IMAGES;
    assert t[0] == '\\' && t[6..] == "mages" && t != "images";
    assert "mages"[1..] == "ages" && "ages"[1..] == "ges" && "ges"[1..] == "es" && "es"[1..] == "s" && "s"[1..] == "";
  }

  lemma EscapedKeyMap(env: Env)
    requires env.unescape(ESCAPED_IMAGES) == "images"
    ensures ImagesOfMap(MapInto(env, map[], EscapedKey().ms)) == Some("false")
  {
    EscapedWf();
    PlainImages(env);
    WordShape(env, "false");
    assert Unquote(env, ESCAPED_IMAGES) == "images";
    hide Unquote, Unparse;
    var m1: Meta := map["images" := Word("true")];
    var last := Member("", ESCAPED_IMAGES, "", "", Word("false"), "", NoMembers);
    assert MapInto(env, m1["images" := Word("false")], NoMembers) == m1["images" := Word("false")];
    assert MapInto(env, m1, last) == m1["images" := Word("false")];
  }

  /** Nothing here is nested; the pass keeps the earlier value because the later key is escaped. */
  lemma StaleImagesByEscape(env: Env, sc: ClassFields)
    requires env.unescape(ESCAPED_IMAGES) == "images" && sc.imagesJSON == ""
    ensures var v := EscapedKey(); var s := Unparse(v);
            && Unmarshal(env, s) == Some(MapInto(env, map[], v.ms))
            && ImagesOfMap(MapInto(env, map[], v.ms)) == Some("false")
            && ImagesRaw(env, s) == Some("true") && Extract(env, sc, s).imagesJSON == "true"
  {
    hide EscapedKey, Unparse, MapInto, Wf, Convertible, Nesting, Height, Unmarshal, Extract, FillFromMap, ImagesOfMap;
    hide ImagesRaw, ImagesAnywhere, LastImages, Reached, Document, Oracle, Escaped;
    var v := EscapedKey();
    EscapedKeyShape(env);
    EscapedKeyMap(env);
    WholeText(v);
    FilterFindsAll(env, Unparse(v));
    ImagesOfObject(env, Unparse(v), v);
    UnmarshalOn(env, Unparse(v), v);
    ExtractIsOracle(env, sc, Unparse(v));
    FilledImages(env, sc, Unparse(v));
  }

  lemma PlainImages(env: Env)
    ensures Unquote(env, "images") == "images"
  {
    hide Sanitize, Valid;
    AsciiIsValid("images");
    SanitizeKeepsExactlyValid("images");
  }

  lemma FilledImages(env: Env, sc: ClassFields, s: string)
    requires sc.imagesJSON == "" && ImagesRaw(env, s).Some? && Unmarshal(env, s).Some?
    ensures Oracle(env, sc, s).imagesJSON == ImagesRaw(env, s).value
  {
    hide ImagesRaw, VarString, MetaString, Keep, FirstNonEmpty, Unmarshal;
  }

  // ---------- The decoded map of a simple object ----------

  function ImagesOfMap(m: Meta): Option<string> { if "images" in m then Some(Unparse(m["images"])) else None }

  predicate PlainTexts(m: Meta) { forall k: Key | IsText(k) && NameOf(k) in m :: TextOk(k, m[NameOf(k)]) }

  lemma PlainInsert(env: Env, m: Meta, key: string, v: Json)
    requires PlainTexts(m) && SimpleMember(env, key, v)
    ensures PlainTexts(m[Unquote(env, key) := v])
    ensures ImagesOfMap(m[Unquote(env, key) := v]) == if key == "images" then Some(Unparse(v)) else ImagesOfMap(m)
  {
    SimpleMemberKey(env, key, v);
    UnquotedTarget(env, key);
    ExactKeyName(key);
    ExactKeyName(Unquote(env, key));
    NamesAreExact(KeyImagesRaw);
    assert NameOf(KeyImagesRaw) == "images";
    hide SimpleMember, SweepHits, ExactKey, NameOf, Escaped, Unquote, Unparse, TextOk;
    var m' := m[Unquote(env, key) := v];
    forall k: Key | IsText(k) && NameOf(k) in m' ensures TextOk(k, m'[NameOf(k)]) {
      NamesAreExact(k);
    }
  }

  lemma {:induction false} PlainMap(env: Env, m: Meta, ms: Members)
    requires PlainTexts(m) && Simple(env, ms)
    ensures PlainTexts(MapInto(env, m, ms)) && ImagesOfMap(MapInto(env, m, ms)) == LastImages(ms, ImagesOfMap(m))
    decreases ms
  {
    hide PlainTexts, ImagesOfMap, SimpleMember, Unquote;
    if ms.Member? {
      PlainInsert(env, m, ms.key, ms.value);
      PlainMap(env, m[Unquote(env, ms.key) := ms.value], ms.rest);
    }
  }

  /** A plain string renders as its raw content, in both decoders. */
  lemma PlainText(env: Env, m: Meta, k: Key)
    requires PlainTexts(m) && IsText(k)
    ensures MetaString(env, m, NameOf(k)) == Raw(m, NameOf(k))
  {
    var key := NameOf(k);
    if key in m {
      assert TextOk(k, m[key]);
      SanitizeKeepsExactlyValid(m[key].raw);
    }
    hide NameOf, Escaped, Sanitize, Valid;
  }

  lemma KeptText(env: Env, m: Meta, k: Key, was: string)
    requires PlainTexts(m) && IsText(k)
    ensures MetaString(env, m, NameOf(k)) == Raw(m, NameOf(k))
    ensures (if was == "" && NameOf(k) in m then VarString(env, m[NameOf(k)]) else was) == Keep(was, Raw(m, NameOf(k)))
  {
    PlainText(env, m, k);
    hide PlainTexts, VarString, NameOf;
  }

  lemma KeptImages(env: Env, sc: ClassFields, m: Meta, s: string)
    requires ImagesRaw(env, s) == ImagesOfMap(m)
    ensures SetImages(env, sc, s) == sc.(imagesJSON := Keep(sc.imagesJSON, if "images" in m then Unparse(m["images"])
            else ""))
  {
    hide ImagesRaw, Unparse;
  }

  /** Filling from the map of a simple object is filling from its fields. */
  lemma FillsAgree(env: Env, sc: ClassFields, m: Meta, s: string)
    requires PlainTexts(m) && ImagesRaw(env, s) == ImagesOfMap(m)
    ensures FillFromMap(env, sc, m, s) == FillFromFields(sc, FieldsOf(m))
  {
    var f := FieldsOf(m);
    TextsAgree(env, sc, m);
    KeptImages(env, FillTexts(sc, f), m, s);
    hide PlainTexts, VarString, Raw, ImagesRaw, ImagesOfMap, Unparse, MetaString, Keep, FirstNonEmpty, SetImages;
    hide TextsFromMap;
  }

  /** All fields but the images text. */
  function FillTexts(sc: ClassFields, f: Fields): ClassFields {
    FillFromFields(sc, f).(imagesJSON := sc.imagesJSON)
  }

  lemma TextsAgree(env: Env, sc: ClassFields, m: Meta)
    requires PlainTexts(m)
    ensures TextsFromMap(env, sc, m) == FillTexts(sc, FieldsOf(m))
  {
    KeptText(env, m, KeyName, sc.name);
    KeptText(env, m, KeyDesc, sc.desc);
    KeptText(env, m, KeyIcon, sc.iconURL);
    PlainText(env, m, KeyImage);
    PlainText(env, m, KeyBackdropImage);
    PlainText(env, m, KeyAltImage);
    PlainText(env, m, KeyAltBackdropImage);
    PlainText(env, m, KeyAudio);
    PlainText(env, m, KeyVideo);
    hide PlainTexts, VarString, Raw, Unparse, MetaString, Keep, FirstNonEmpty;
  }

  // ---------- The main theorem ----------

  lemma NoTextsYet()
    ensures PlainTexts(map[]) && ImagesOfMap(map[]) == None
  {
  }

  lemma FireDecodes(env: Env, s: string, f: Fields, v: Json)
    requires Certifies(env, s, f, v)
    ensures var m := MapInto(env, map[], v.ms);
            && Unmarshal(env, s) == Some(m) && f == FieldsOf(m) && PlainTexts(m) && ImagesRaw(env, s) == ImagesOfMap(m)
  {
    SimpleIsShallowEnough(v);
    NestingBelowHeight(v);
    NoTextsYet();
    PlainMap(env, map[], v.ms);
    FilterFindsAll(env, s);
    ImagesOfObject(env, s, v);
    ReachesAll(v.ms);
    hide Document, Convertible, Nesting, Height, HeightMembers, Simple, FieldsOf, MapInto, PlainTexts, ImagesOfMap;
    hide ImagesRaw, ImagesAnywhere, Reached, LastImages, Unmarshal;
    UnmarshalOn(env, s, v);
  }

  lemma {:induction false} ImagesAreTexts(ms: Members, found: Option<string>)
    requires WfMembers(ms) && found != Some("")
    ensures LastImages(ms, found) != Some("")
    decreases ms
  {
    if ms.Member? {
      FirstOf(ms.value);
      ImagesAreTexts(ms.rest, if ms.key == "images" then Some(Unparse(ms.value)) else found);
    }
  }

  /** When the scanner fires, its inline capture is what the second pass finds, or both find nothing. */
  lemma ImagesAgree(env: Env, s: string, f: Fields)
    requires MetaVerdict(env, s) == Fire(f)
    ensures ImagesRaw(env, s) == if f.images == "" then None else Some(f.images)
  {
    hide MetaVerdict, ImagesRaw, MapInto, Unparse, PlainTexts, Unmarshal, LastImages, WfMembers;
    FireCertifies(env, s, f);
    var v :| Certifies(env, s, f, v);
    FireDecodes(env, s, f, v);
    NoTextsYet();
    PlainMap(env, map[], v.ms);
    ImagesAreTexts(v.ms, None);
  }

  lemma NullSetsNothing(env: Env, sc: ClassFields, s: string)
    requires Document(s, Word("null"))
    ensures FillFromMap(env, sc, map[], s) == sc
  {
    var rest := DocumentRest(s, Word("null"));
    FilterFindsAll(env, s);
    hide ImagesRaw, Document, Skip;
    assert Skip(s)[0] == 'n';
  }

  /** A dropped input is one on which the full decode sets nothing. */
  lemma NothingSetsNothing(env: Env, sc: ClassFields, s: string)
    requires MetaVerdict(env, s) == Nothing
    ensures Oracle(env, sc, s) == sc
  {
    hide MetaVerdict, Unmarshal, FillFromMap, Document, Convertible, Nesting, MapInto;
    if Unmarshal(env, s).Some? {
      UnmarshalOnly(env, s);
      var v :| Decodable(env, s, v);
      UnmarshalOn(env, s, v);
      NothingIsNoObject(env, s, v);
      NullSetsNothing(env, sc, s);
    }
  }

  /** For every text and every starting class, the scanner and its fallback leave what the full decode leaves. */
  lemma ExtractIsOracle(env: Env, sc: ClassFields, s: string)
    ensures Extract(env, sc, s) == Oracle(env, sc, s)
  {
    hide MetaVerdict, Unmarshal, FillFromMap, FillFromFields, Document, Simple, Convertible, HeightMembers, FieldsOf;
    hide MapInto, PlainTexts, ImagesRaw, ImagesOfMap;
    match MetaVerdict(env, s) {
      case Fire(f) =>
        FireCertifies(env, s, f);
        var v :| Certifies(env, s, f, v);
        FireDecodes(env, s, f, v);
        FillsAgree(env, sc, MapInto(env, map[], v.ms), s);
      case Nothing => NothingSetsNothing(env, sc, s);
      case Defer =>
    }
  }
}
