/**
 The top-level scanner of G45 metadata (indexer/classify_g45_scan.go): a three-way verdict over the
 raw text, proved against the JSON grammar and against the map a full decode would build.
 */
module G45Scan {
  import opened IndexTypes
  import opened JsonGrammar
  import opened JsonWalk
  import opened Utf8

  /** What the scanner and the full decode share: Go's float64 range, Unicode folding, unescaping and %v rendering. */
  datatype Env = Env(ok: string -> bool, fold: (string, string) -> bool, unescape: string -> string,
      render: Json -> string)

  /** g45MaxDepth and encoding/json's maxNestingDepth. */
  const MAX_DEPTH: nat := 1000
  const JSON_MAX_NESTING: nat := 10000

  datatype Fields = Fields(name: string, desc: string, icon: string, image: string, backdropImage: string,
                           altImage: string, altBackdropImage: string, audio: string, video: string, images: string)

  const NO_FIELDS: Fields := Fields("", "", "", "", "", "", "", "", "", "")

  datatype Verdict = Fire(fields: Fields) | Nothing | Defer

  // ---------- Keys ----------

  datatype Key =
    | KeyNone | KeyName | KeyDesc | KeyIcon | KeyImage | KeyBackdropImage
    | KeyAltImage | KeyAltBackdropImage | KeyAudio | KeyVideo | KeyImagesRaw | KeyFold

  const TARGETS: seq<string> :=
    ["name", "description", "icon", "image", "backdropImage", "alt-image", "alt-backdropImage", "audio", "video"]

  function Lower(c: char): char { if 'A' <= c <= 'Z' then (c as int + 32) as char else c }

  /** strings.EqualFold: letter by letter on ASCII, Go's simple folding otherwise. */
  predicate EqualFold(env: Env, a: string, b: string) {
    if IsAscii(a) && IsAscii(b) then |a| == |b| && forall i | 0 <= i < |a| :: Lower(a[i]) == Lower(b[i])
    else env.fold(a, b)
  }

  predicate FoldsSome(env: Env, key: string) { exists k | 0 <= k < |TARGETS| :: EqualFold(env, key, TARGETS[k]) }

  /** g45TargetKey with its length filter. */
  predicate SweepHits(env: Env, key: string) {
    exists k | 0 <= k < |TARGETS| :: !(IsAscii(key) && |TARGETS[k]| != |key|) && EqualFold(env, key, TARGETS[k])
  }

  function ExactKey(key: string): Key {
    if key == "name" then KeyName
    else if key == "description" then KeyDesc
    else if key == "icon" then KeyIcon
    else if key == "image" then KeyImage
    else if key == "backdropImage" then KeyBackdropImage
    else if key == "alt-image" then KeyAltImage
    else if key == "alt-backdropImage" then KeyAltBackdropImage
    else if key == "audio" then KeyAudio
    else if key == "video" then KeyVideo
    else if key == "images" then KeyImagesRaw
    else KeyNone
  }

  function TargetKey(env: Env, key: string): Key {
    if ExactKey(key) != KeyNone then ExactKey(key)
    else if SweepHits(env, key) then KeyFold
    else KeyNone
  }

  lemma TargetsAreAscii()
    ensures forall k | 0 <= k < |TARGETS| :: IsAscii(TARGETS[k])
  {
  }

  /** The length filter of the sweep loses no fold variant. */
  lemma FilterLosesNothing(env: Env, key: string)
    ensures SweepHits(env, key) == FoldsSome(env, key)
    ensures TargetKey(env, key) == KeyFold <==> ExactKey(key) == KeyNone && FoldsSome(env, key)
  {
    TargetsAreAscii();
    hide IsAscii, Lower;
    if FoldsSome(env, key) {
      var k :| 0 <= k < |TARGETS| && EqualFold(env, key, TARGETS[k]);
      assert !(IsAscii(key) && |TARGETS[k]| != |key|);
    }
  }

  predicate IsText(k: Key) { k != KeyNone && k != KeyImagesRaw && k != KeyFold }

  predicate Escaped(raw: string) { '\\' in raw }

  // ---------- The scan ----------

  /** One value: the fields so far with the text behind it, or a verdict for the whole input. */
  datatype Step = Next(fields: Fields, rest: string) | Stop(verdict: Verdict)

  function SetField(f: Fields, k: Key, text: string): Fields {
    match k
    case KeyName => f.(name := text)
    case KeyDesc => f.(desc := text)
    case KeyIcon => f.(icon := text)
    case KeyImage => f.(image := text)
    case KeyBackdropImage => f.(backdropImage := text)
    case KeyAltImage => f.(altImage := text)
    case KeyAltBackdropImage => f.(altBackdropImage := text)
    case KeyAudio => f.(audio := text)
    case KeyVideo => f.(video := text)
    case KeyImagesRaw => f.(images := text)
    case _ => f
  }

  function TopValue(env: Env, k: Key, t: string, f: Fields): (s: Step)
    requires t != ""
    ensures if s.Next? then |s.rest| < |t| else !s.verdict.Fire?
  {
    if IsText(k) then
      if t[0] != '"' then Stop(Defer)
      else
        match StringEnd(t[1..])
        case None => Stop(Nothing)
        case Some(e) =>
          var raw := t[1..][..e];
          if Escaped(raw) || !Valid(raw) then Stop(Defer) else Next(SetField(f, k, raw), t[1..][e + 1..])
    else
      match WalkValue(env.ok, MAX_DEPTH, t, 1)
      case NoFields => Stop(Nothing)
      case Fallback => Stop(Defer)
      case Ok(v, rest) => Next(SetField(f, k, t[..|t| - |rest|]), rest)
  }

  /** The member loop of g45ScanMetaVerdict, from behind the brace or a comma. */
  function TopScan(env: Env, t: string, f: Fields): Verdict
    decreases |t|
  {
    var t1 := Skip(t);
    if t1 == "" || t1[0] != '"' then Nothing
    else
      match StringEnd(t1[1..])
      case None => Nothing
      case Some(e) =>
        var key := t1[1..][..e];
        if Escaped(key) then Defer
        else if TargetKey(env, key) == KeyFold then Defer
        else
          var t3 := Skip(t1[1..][e + 1..]);
          if t3 == "" || t3[0] != ':' || Skip(t3[1..]) == "" then Nothing
          else
            match TopValue(env, TargetKey(env, key), Skip(t3[1..]), f)
            case Stop(v) => v
            case Next(g, after) =>
              match Behind(after, '}')
              case Broken => Nothing
              case Closed(_, rest) => if Skip(rest) == "" then Fire(g) else Nothing
              case More(_, next) => TopScan(env, next, g)
  }

  /** g45ScanMetaVerdict. */
  function MetaVerdict(env: Env, s: string): Verdict {
    var t := Skip(s);
    if t == "" || t[0] != '{' then Nothing
    else
      var t1 := Skip(t[1..]);
      if t1 != "" && t1[0] == '}' then (if Skip(t1[1..]) == "" then Fire(NO_FIELDS) else Nothing)
      else TopScan(env, t[1..], NO_FIELDS)
  }

  // ---------- What it is to agree with ----------

  type Meta = map<string, Json>

  /** A key or string value as encoding/json decodes it. */
  function Unquote(env: Env, raw: string): string {
    if Escaped(raw) then env.unescape(raw) else Sanitize(raw)
  }

  /** The map a full decode builds: later members replace earlier ones. */
  function MapInto(env: Env, m: Meta, ms: Members): Meta
    decreases ms
  {
    if ms.NoMembers? then m else MapInto(env, m[Unquote(env, ms.key) := ms.value], ms.rest)
  }

  function Raw(m: Meta, key: string): string { if key in m && m[key].Str? then m[key].raw else "" }

  /** The fields of a decoded map: raw string contents, and the text of the images value. */
  function FieldsOf(m: Meta): Fields {
    Fields(Raw(m, "name"), Raw(m, "description"), Raw(m, "icon"), Raw(m, "image"), Raw(m, "backdropImage"),
           Raw(m, "alt-image"), Raw(m, "alt-backdropImage"), Raw(m, "audio"), Raw(m, "video"),
           if "images" in m then Unparse(m["images"]) else "")
  }

  /** A member the scanner decides itself: unescaped, no fold variant, targets plain valid strings. */
  predicate SimpleMember(env: Env, key: string, v: Json) {
    && !Escaped(key) && (ExactKey(key) == KeyNone ==> !FoldsSome(env, key))
    && (IsText(ExactKey(key)) ==> v.Str? && !Escaped(v.raw) && Valid(v.raw))
  }

  predicate Simple(env: Env, ms: Members) {
    ms.Member? ==> SimpleMember(env, ms.key, ms.value) && Simple(env, ms.rest)
  }

  /** s is the JSON text v with whitespace around. */
  ghost predicate Document(s: string, v: Json) {
    Wf(v) && exists pre, post :: Around(s, pre, v, post)
  }

  predicate Around(s: string, pre: string, v: Json, post: string) {
    AllWs(pre) && AllWs(post) && s == pre + Unparse(v) + post
  }

  // ---------- One member ----------

  function NameOf(k: Key): string {
    match k
    case KeyName => "name"
    case KeyDesc => "description"
    case KeyIcon => "icon"
    case KeyImage => "image"
    case KeyBackdropImage => "backdropImage"
    case KeyAltImage => "alt-image"
    case KeyAltBackdropImage => "alt-backdropImage"
    case KeyAudio => "audio"
    case KeyVideo => "video"
    case KeyImagesRaw => "images"
    case _ => ""
  }

  lemma ExactKeyName(key: string)
    ensures ExactKey(key) != KeyNone ==> key == NameOf(ExactKey(key))
    ensures ExactKey(key) != KeyFold
  {
  }

  lemma NamesAreExact(k: Key)
    requires k != KeyNone && k != KeyFold
    ensures ExactKey(NameOf(k)) == k && IsAscii(NameOf(k))
  {
  }

  /** Decoding an unescaped key gives a target name only if it is that name. */
  lemma UnquotedTarget(env: Env, key: string)
    requires !Escaped(key)
    ensures ExactKey(Unquote(env, key)) == ExactKey(key)
  {
    hide ExactKey, NameOf, Escaped, Sanitize, IsAscii, Valid;
    var k := ExactKey(Unquote(env, key));
    if k != KeyNone {
      ExactKeyName(Unquote(env, key));
      NamesAreExact(k);
      SanitizeToAscii(key, NameOf(k));
    } else if ExactKey(key) != KeyNone {
      ExactKeyName(key);
      NamesAreExact(ExactKey(key));
      AsciiIsValid(key);
      SanitizeKeepsExactlyValid(key);
    }
  }

  predicate TextOk(k: Key, v: Json) { IsText(k) ==> v.Str? && !Escaped(v.raw) && Valid(v.raw) }

  /** The text a member contributes to its field. */
  function Captured(k: Key, v: Json): string
    requires TextOk(k, v)
  {
    if IsText(k) then v.raw else Unparse(v)
  }

  lemma SimpleMemberKey(env: Env, key: string, v: Json)
    ensures SimpleMember(env, key, v) <==>
            !Escaped(key) && TargetKey(env, key) != KeyFold && TextOk(TargetKey(env, key), v)
  {
    FilterLosesNothing(env, key);
    ExactKeyName(key);
    hide ExactKey, FoldsSome, SweepHits, Escaped, Valid;
  }

  lemma FieldsOfTarget(m: Meta, k: Key, v: Json)
    requires k != KeyNone && k != KeyFold && TextOk(k, v)
    ensures FieldsOf(m[NameOf(k) := v]) == SetField(FieldsOf(m), k, Captured(k, v))
  {
    hide Escaped, Valid, Unparse;
  }

  lemma FieldsOfOther(m: Meta, key: string, v: Json)
    requires ExactKey(key) == KeyNone
    ensures FieldsOf(m[key := v]) == FieldsOf(m)
  {
    hide Unparse;
  }

  /** The fields follow the map, member by member. */
  lemma FieldsFollow(env: Env, m: Meta, key: string, v: Json)
    requires SimpleMember(env, key, v)
    ensures TextOk(TargetKey(env, key), v)
    ensures FieldsOf(m[Unquote(env, key) := v]) ==
            SetField(FieldsOf(m), TargetKey(env, key), Captured(TargetKey(env, key), v))
  {
    SimpleMemberKey(env, key, v);
    UnquotedTarget(env, key);
    ExactKeyName(key);
    ExactKeyName(Unquote(env, key));
    var k := ExactKey(key);
    if k == KeyNone {
      FieldsOfOther(m, Unquote(env, key), v);
    } else {
      FieldsOfTarget(m, k, v);
    }
    hide ExactKey, FieldsOf, NameOf, FoldsSome, SweepHits, Escaped, Valid, Unquote, Unparse;
  }

  // ---------- The scan is the walk, with the map of what it walked ----------

  lemma WalkedKind(ok: string -> bool, t: string)
    requires t != "" && t[0] != '"' && WalkValue(ok, MAX_DEPTH, t, 1).Ok?
    ensures !WalkValue(ok, MAX_DEPTH, t, 1).value.Str?
  {
    hide WalkMembers, WalkElements, NumberAt, Skip, Lead;
  }

  lemma WalkedNothing(ok: string -> bool)
    ensures WalkValue(ok, MAX_DEPTH, "", 1) == NoFields
  {
  }

  lemma WalkedString(ok: string -> bool, t: string)
    requires t != "" && t[0] == '"'
    ensures WalkValue(ok, MAX_DEPTH, t, 1) == WalkString(t)
  {
  }

  lemma TopValueIsWalk(env: Env, k: Key, t: string, f: Fields)
    requires t != ""
    ensures var w, s := WalkValue(env.ok, MAX_DEPTH, t, 1), TopValue(env, k, t, f);
            && (s.Next? ==> w.Ok?)
            && (w.Ok? ==> s == if TextOk(k, w.value) then Next(SetField(f, k, Captured(k, w.value)), w.rest)
               else Stop(Defer))
            && (w.Fallback? ==> s == Stop(Defer))
  {
    hide WalkValue, SetField, StringEnd, Escaped, Valid, Unparse, IsText;
    var w := WalkValue(env.ok, MAX_DEPTH, t, 1);
    if IsText(k) {
      if t[0] == '"' {
        WalkedString(env.ok, t);
      } else if w.Ok? {
        WalkedKind(env.ok, t);
      }
    } else if w.Ok? {
      ValueSound(env.ok, MAX_DEPTH, t, 1);
      assert t[..|t| - |w.rest|] == Unparse(w.value);
    }
  }

  /** TopScan's member, once its key and colon are found. */
  function AfterValue(env: Env, s: Step): Verdict {
    match s
    case Stop(v) => v
    case Next(g, after) =>
      match Behind(after, '}')
      case Broken => Nothing
      case Closed(_, rest) => if Skip(rest) == "" then Fire(g) else Nothing
      case More(_, next) => TopScan(env, next, g)
  }

  lemma TopScanKey(env: Env, t: string, f: Fields)
    ensures var k, v := WalkKey(t), TopScan(env, t, f);
            if k.KeyAt? && k.rest != "" then
              v == if Escaped(k.key) || TargetKey(env, k.key) == KeyFold then Defer
                   else AfterValue(env, TopValue(env, TargetKey(env, k.key), k.rest, f))
            else !v.Fire?
  {
    hide TopValue, StringEnd, Skip, Lead, TargetKey, Escaped, Behind;
  }

  ghost predicate Agrees(env: Env, m: Meta, r: Walked<Members>, v: Verdict) {
    && (v.Fire? ==> r.Ok? && Skip(r.rest) == "")
    && (r.Ok? && Skip(r.rest) == "" ==> v == if Simple(env, r.value) then Fire(FieldsOf(MapInto(env, m, r.value)))
       else Defer)
    && (r.Fallback? ==> v == Defer)
  }

  lemma {:induction false} TopScanIsWalk(env: Env, t: string, m: Meta)
    ensures Agrees(env, m, WalkMembers(env.ok, MAX_DEPTH, t, 0), TopScan(env, t, FieldsOf(m)))
    decreases |t|
  {
    hide WalkKey, TopScan, WalkValue, TopValue, SetField, FieldsOf, SimpleMember, TargetKey, Escaped, Unquote, Behind;
    hide Skip, TextOk, Captured;
    var f := FieldsOf(m);
    TopScanKey(env, t, f);
    var k := WalkKey(t);
    WalkedNothing(env.ok);
    if k.KeyAt? && k.rest != "" {
      var w := WalkValue(env.ok, MAX_DEPTH, k.rest, 1);
      TopValueIsWalk(env, TargetKey(env, k.key), k.rest, f);
      if w.Ok? {
        SimpleMemberKey(env, k.key, w.value);
        if SimpleMember(env, k.key, w.value) {
          FieldsFollow(env, m, k.key, w.value);
          var b, m' := Behind(w.rest, '}'), m[Unquote(env, k.key) := w.value];
          assert MapInto(env, m', NoMembers) == m' && Simple(env, NoMembers);
          if b.More? {
            TopScanIsWalk(env, b.rest, m');
          }
        }
      }
    }
  }

  // ---------- Whole documents ----------

  lemma DocumentRest(s: string, v: Json) returns (rest: string)
    requires Document(s, v)
    ensures Wf(v) && Skip(s) == Unparse(v) + rest && Skip(rest) == "" && Ends(rest)
  {
    var pre, post :| Around(s, pre, v, post);
    FirstOf(v);
    SkipWs(pre, Unparse(v) + post);
    assert pre + Unparse(v) + post == pre + (Unparse(v) + post);
    SkipWs(post, "");
    assert post + "" == post;
    rest := post;
    hide Wf, Unparse, Skip, Lead;
  }

  lemma RestDocument(s: string, v: Json, rest: string)
    requires Wf(v) && Skip(s) == Unparse(v) + rest && Skip(rest) == ""
    ensures Document(s, v) && Ends(rest)
  {
    LeadSkip(s);
    LeadSkip(rest);
    assert rest == Lead(rest) + "" == Lead(rest);
    assert Lead(s) + (Unparse(v) + rest) == Lead(s) + Unparse(v) + rest;
    assert Around(s, Lead(s), v, rest);
    hide Wf, Unparse, Skip, Lead;
  }

  /** A text is at most one document. */
  lemma OneDocument(s: string, v: Json, w: Json)
    requires Document(s, v) && Document(s, w)
    ensures v == w
  {
    var a := DocumentRest(s, v);
    var b := DocumentRest(s, w);
    OneParse(v, a, w, b);
    hide Document, Wf, Unparse, Skip, Ends;
  }

  lemma VerdictIsWalk(env: Env, s: string)
    requires Skip(s) != "" && Skip(s)[0] == '{'
    ensures var r, v := WalkValue(env.ok, MAX_DEPTH, Skip(s), 0), MetaVerdict(env, s);
            && (v.Fire? ==> r.Ok? && Skip(r.rest) == "")
            && (r.Ok? ==> r.value.Obj?)
            && (r.Ok? && Skip(r.rest) == "" ==>
                  v == if Simple(env, r.value.ms) then Fire(FieldsOf(MapInto(env, map[], r.value.ms))) else Defer)
            && (r.Fallback? ==> v == Defer)
  {
    hide Skip, Lead, WalkMembers, TopScan;
    var t := Skip(s);
    assert FieldsOf(map[]) == NO_FIELDS && Simple(env, NoMembers) && MapInto(env, map[], NoMembers) == map[];
    hide FieldsOf, Simple, MapInto;
    TopScanIsWalk(env, t[1..], map[]);
  }

  /** The verdict on every valid object whose numbers the decoder takes. */
  lemma VerdictOnObjects(env: Env, s: string, v: Json)
    requires v.Obj? && Document(s, v) && Convertible(env.ok, v)
    ensures MetaVerdict(env, s) ==
            if Simple(env, v.ms) && HeightMembers(v.ms) <= MAX_DEPTH then Fire(FieldsOf(MapInto(env, map[], v.ms)))
                else Defer
  {
    var rest := DocumentRest(s, v);
    FirstOf(v);
    ValueComplete(env.ok, MAX_DEPTH, v, rest, 0);
    VerdictIsWalk(env, s);
    SimpleIsShallowEnough(v);
    hide *;
  }

  lemma SimpleIsShallowEnough(v: Json)
    requires v.Obj?
    ensures Height(v) == 1 + HeightMembers(v.ms)
  {
  }

  /** What a fired verdict certifies. */
  ghost predicate Certifies(env: Env, s: string, f: Fields, v: Json) {
    && v.Obj? && Document(s, v) && Convertible(env.ok, v) && HeightMembers(v.ms) <= MAX_DEPTH && Simple(env, v.ms)
    && f == FieldsOf(MapInto(env, map[], v.ms))
  }

  /** The scanner fires with f exactly on simple objects within the depth limit, whose decoded map has the fields f. */
  lemma FiresExactly(env: Env, s: string, f: Fields)
    ensures MetaVerdict(env, s) == Fire(f) <==> exists v :: Certifies(env, s, f, v)
  {
    if MetaVerdict(env, s) == Fire(f) {
      FireCertifies(env, s, f);
    }
    if v :| Certifies(env, s, f, v) {
      VerdictOnObjects(env, s, v);
    }
    hide MetaVerdict, Document, FieldsOf, MapInto, Simple, Convertible, HeightMembers;
  }

  lemma FireCertifies(env: Env, s: string, f: Fields)
    requires MetaVerdict(env, s) == Fire(f)
    ensures exists v :: Certifies(env, s, f, v)
  {
    hide TopScan, Skip, WalkValue, Wf, Unparse, Convertible, Document, HeightMembers, Height, Simple, FieldsOf, MapInto;
    VerdictIsWalk(env, s);
    var r := WalkValue(env.ok, MAX_DEPTH, Skip(s), 0);
    ValueSound(env.ok, MAX_DEPTH, Skip(s), 0);
    RestDocument(s, r.value, r.rest);
    SimpleIsShallowEnough(r.value);
    hide MetaVerdict;
    VerdictOnObjects(env, s, r.value);
    assert Certifies(env, s, f, r.value);
  }

  /** The scanner drops an input only if it is no valid object with convertible numbers. */
  lemma NothingIsNoObject(env: Env, s: string, v: Json)
    requires MetaVerdict(env, s) == Nothing && Document(s, v)
    ensures !v.Obj? || !Convertible(env.ok, v)
  {
    if v.Obj? && Convertible(env.ok, v) {
      VerdictOnObjects(env, s, v);
    }
    hide *;
  }
}
