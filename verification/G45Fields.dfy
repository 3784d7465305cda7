/**
 What the class ends up holding, field by field, read off the decoded map and off the members of the text:
 the meaning of extractG45MetadataString (indexer/classify.go:700-862) in terms of neither of its two fills.
 */
module G45Fields {
  import opened IndexTypes
  import opened JsonGrammar
  import opened JsonWalk
  import opened Utf8
  import opened G45Scan
  import opened G45Extract

  // ---------- The decoded map ----------

  datatype Pair = Pair(key: string, value: Json)

  function Pairs(ms: Members): seq<Pair>
    decreases ms
  {
    if ms.NoMembers? then [] else [Pair(ms.key, ms.value)] + Pairs(ms.rest)
  }

  /** A key or string as it reads after decoding: escapes resolved, bad bytes replaced. */
  function Decode(env: Env, raw: string): string { if '\\' in raw then env.unescape(raw) else Sanitize(raw) }

  lemma {:induction false} MapOfPairs(env: Env, m: Meta, ms: Members, key: string)
    ensures var q, after := Pairs(ms), MapInto(env, m, ms);
            && (key in after <==> key in m || exists i :: 0 <= i < |q| && Decode(env, q[i].key) == key)
            && (forall i | 0 <= i < |q| && Decode(env, q[i].key) == key
                    && (forall j | i < j < |q| :: Decode(env, q[j].key) != key) :: after[key] == q[i].value)
            && ((forall i | 0 <= i < |q| :: Decode(env, q[i].key) != key) && key in m ==> after[key] == m[key])
    decreases ms
  {
    if ms.Member? {
      var q, tail := Pairs(ms), Pairs(ms.rest);
      var m' := m[Unquote(env, ms.key) := ms.value];
      assert Unquote(env, ms.key) == Decode(env, ms.key);
      hide Sanitize, Unquote, Decode;
      MapOfPairs(env, m', ms.rest, key);
      assert q[0] == Pair(ms.key, ms.value) && forall i | 0 < i < |q| :: q[i] == tail[i - 1];
      assert forall i | 0 <= i < |tail| :: tail[i] == q[i + 1];
    }
  }

  /** The full decode keeps, under each decoded key, the value of its last member, and has no other key. */
  lemma LastMemberWins(env: Env, s: string, v: Json, m: Meta)
    requires Document(s, v) && v.Obj? && Unmarshal(env, s) == Some(m)
    ensures forall key :: key in m <==> exists i :: 0 <= i < |Pairs(v.ms)| && Decode(env, Pairs(v.ms)[i].key) == key
    ensures forall i | 0 <= i < |Pairs(v.ms)| ::
              (forall j | i < j < |Pairs(v.ms)| ::
                 Decode(env, Pairs(v.ms)[j].key) != Decode(env, Pairs(v.ms)[i].key)) ==>
              Decode(env, Pairs(v.ms)[i].key) in m && m[Decode(env, Pairs(v.ms)[i].key)] == Pairs(v.ms)[i].value
  {
    hide Document, Unmarshal, MapInto, Decode, Decodable, Pairs;
    UnmarshalOnly(env, s);
    var w :| Decodable(env, s, w);
    DecodableDocument(env, s, w);
    OneDocument(s, v, w);
    UnmarshalOn(env, s, v);
    assert m == MapInto(env, map[], v.ms);
    forall key: string { MapOfPairs(env, map[], v.ms, key); }
  }

  lemma DecodableDocument(env: Env, s: string, v: Json)
    requires Decodable(env, s, v)
    ensures Document(s, v)
  {
    hide Document;
  }

  // ---------- The fields ----------

  /** An entry as text: a string decoded, anything else as %v renders it, "" when absent. */
  function Rendered(env: Env, m: Meta, key: string): string {
    if key !in m then "" else if m[key].Str? then Decode(env, m[key].raw) else env.render(m[key])
  }

  lemma RenderedIs(env: Env, m: Meta, key: string)
    ensures MetaString(env, m, key) == Rendered(env, m, key)
    ensures key in m ==> VarString(env, m[key]) == Rendered(env, m, key)
  {
    hide Sanitize;
  }

  lemma FilledNames(env: Env, sc: ClassFields, m: Meta)
    ensures var f := TextsFromMap(env, sc, m);
            && f.name == (if sc.name != "" then sc.name else Rendered(env, m, "name"))
            && f.desc == (if sc.desc != "" then sc.desc else Rendered(env, m, "description"))
            && f.iconURL == (if sc.iconURL != "" then sc.iconURL else Rendered(env, m, "icon"))
  {
    RenderedIs(env, m, "name");
    RenderedIs(env, m, "description");
    RenderedIs(env, m, "icon");
    assert forall key: string | key !in m :: Rendered(env, m, key) == "";
    hide MetaString, VarString, Rendered, FirstNonEmpty, Keep;
  }

  lemma FilledMedia(env: Env, sc: ClassFields, m: Meta)
    ensures var f := TextsFromMap(env, sc, m);
            && f.image == (if sc.image != "" then sc.image
                           else if Rendered(env, m, "image") != "" then Rendered(env, m, "image")
                           else Rendered(env, m, "backdropImage"))
            && f.altImage == (if sc.altImage != "" then sc.altImage
                              else if Rendered(env, m, "alt-image") != "" then Rendered(env, m, "alt-image")
                              else Rendered(env, m, "alt-backdropImage"))
            && f.audio == (if sc.audio != "" then sc.audio else Rendered(env, m, "audio"))
            && f.video == (if sc.video != "" then sc.video else Rendered(env, m, "video"))
            && f.imagesJSON == sc.imagesJSON
  {
    RenderedIs(env, m, "image");
    RenderedIs(env, m, "backdropImage");
    RenderedIs(env, m, "alt-image");
    RenderedIs(env, m, "alt-backdropImage");
    RenderedIs(env, m, "audio");
    RenderedIs(env, m, "video");
    hide MetaString, VarString, Rendered;
  }

  lemma FilledImagesText(env: Env, sc: ClassFields, s: string)
    ensures var f := SetImages(env, sc, s);
            && f == sc.(imagesJSON := f.imagesJSON)
            && f.imagesJSON == (if sc.imagesJSON != "" then sc.imagesJSON
                                else if ImagesRaw(env, s).Some? then ImagesRaw(env, s).value else "")
  {
    hide ImagesRaw;
  }

  /** A field that was set stays; an empty one takes its entry, media fields falling back to the backdrop entry. */
  lemma ExtractByField(env: Env, sc: ClassFields, s: string, m: Meta)
    requires Unmarshal(env, s) == Some(m)
    ensures var f := Extract(env, sc, s);
            && f.name == (if sc.name != "" then sc.name else Rendered(env, m, "name"))
            && f.desc == (if sc.desc != "" then sc.desc else Rendered(env, m, "description"))
            && f.iconURL == (if sc.iconURL != "" then sc.iconURL else Rendered(env, m, "icon"))
            && f.image == (if sc.image != "" then sc.image
                           else if Rendered(env, m, "image") != "" then Rendered(env, m, "image")
                           else Rendered(env, m, "backdropImage"))
            && f.altImage == (if sc.altImage != "" then sc.altImage
                              else if Rendered(env, m, "alt-image") != "" then Rendered(env, m, "alt-image")
                              else Rendered(env, m, "alt-backdropImage"))
            && f.audio == (if sc.audio != "" then sc.audio else Rendered(env, m, "audio"))
            && f.video == (if sc.video != "" then sc.video else Rendered(env, m, "video"))
            && f.imagesJSON == (if sc.imagesJSON != "" then sc.imagesJSON
                                else if ImagesRaw(env, s).Some? then ImagesRaw(env, s).value else "")
  {
    FilledNames(env, sc, m);
    FilledMedia(env, sc, m);
    FilledImagesText(env, TextsFromMap(env, sc, m), s);
    ExtractIsOracle(env, sc, s);
    hide Extract, Unmarshal, ImagesRaw, Rendered, TextsFromMap, SetImages;
  }

  lemma ExtractNothing(env: Env, sc: ClassFields, s: string)
    requires Unmarshal(env, s) == None
    ensures Extract(env, sc, s) == sc
  {
    hide Extract, Unmarshal, FillFromMap;
    ExtractIsOracle(env, sc, s);
  }

  lemma PlainlyImages(env: Env, key: string)
    requires '\\' !in key && Unquote(env, key) == "images"
    ensures key == "images"
  {
    UnquotedTarget(env, key);
    assert ExactKey("images") == KeyImagesRaw;
    ExactKeyName(key);
    hide Unquote, ExactKey;
  }

  lemma {:induction false} NoneMissed(env: Env, ms: Members, late: Option<string>)
    requires HeightMembers(ms) <= MAX_DEPTH && forall p <- Pairs(ms) :: '\\' !in p.key
    ensures Missed(env, ms, true, late).Some? ==> late.Some?
    decreases ms
  {
    if ms.Member? {
      assert Pairs(ms)[0] in Pairs(ms);
      assert forall p <- Pairs(ms.rest) :: p in Pairs(ms);
      hide Unquote, Unparse, Height, Pairs;
      if Unquote(env, ms.key) == "images" {
        PlainlyImages(env, ms.key);
      }
      NoneMissed(env, ms.rest, if ms.key == "images" then None else late);
    }
  }

  /** On an object without escaped keys, no deeper than 1000, the images text is that of the decoded entry. */
  lemma ImagesByField(env: Env, sc: ClassFields, s: string, v: Json, m: Meta)
    requires Document(s, v) && v.Obj? && Unmarshal(env, s) == Some(m) && sc.imagesJSON == ""
    requires HeightMembers(v.ms) <= 1000 && forall p <- Pairs(v.ms) :: '\\' !in p.key
    ensures Extract(env, sc, s).imagesJSON == if "images" in m then Unparse(m["images"]) else ""
  {
    NoneMissed(env, v.ms, None);
    hide Document, Unmarshal, MapInto, Decodable, Pairs, Unparse, Extract, Missed, LastImages, Reached, HeightMembers;
    hide ImagesRaw, Rendered;
    UnmarshalOnly(env, s);
    var w :| Decodable(env, s, w);
    DecodableDocument(env, s, w);
    OneDocument(s, v, w);
    UnmarshalOn(env, s, v);
    DecodableNumbers(env, s, v);
    ImagesExactly(env, s, v);
    ExtractByField(env, sc, s, m);
  }

  lemma DecodableNumbers(env: Env, s: string, v: Json)
    requires Decodable(env, s, v)
    ensures Convertible(env.ok, v)
  {
    hide Convertible, Document;
  }

  // ---------- Fold variants and depth limits ----------

  /** A key is a fold variant when it folds to one of the nine text names. */
  lemma FoldNames(env: Env, key: string)
    ensures FoldsSome(env, key) <==>
            || EqualFold(env, key, "name") || EqualFold(env, key, "description") || EqualFold(env, key, "icon")
            || EqualFold(env, key, "image") || EqualFold(env, key, "backdropImage")
            || EqualFold(env, key, "alt-image") || EqualFold(env, key, "alt-backdropImage")
            || EqualFold(env, key, "audio") || EqualFold(env, key, "video")
  {
    hide EqualFold;
    assert TARGETS[0] == "name" && TARGETS[1] == "description" && TARGETS[2] == "icon" && TARGETS[3] == "image";
    assert TARGETS[4] == "backdropImage" && TARGETS[5] == "alt-image" && TARGETS[6] == "alt-backdropImage";
    assert TARGETS[7] == "audio" && TARGETS[8] == "video" && |TARGETS| == 9;
  }

  predicate SameLetter(a: char, b: char) {
    a == b || ('A' <= a <= 'Z' && b as int == a as int + 32) || ('A' <= b <= 'Z' && a as int == b as int + 32)
  }

  /** ASCII keys fold to each other when they differ in the case of letters only. */
  lemma FoldIsCase(env: Env, a: string, b: string)
    requires IsAscii(a) && IsAscii(b)
    ensures EqualFold(env, a, b) <==> |a| == |b| && forall i | 0 <= i < |a| :: SameLetter(a[i], b[i])
  {
    assert forall x: char, y: char | x as int < 0x80 && y as int < 0x80 :: Lower(x) == Lower(y) <==> SameLetter(x, y);
    hide Lower, SameLetter;
  }

  /** {"x":[[..[]..]]} with n arrays inside each other. */
  function DeepObject(n: nat): Json
    requires n > 0
  {
    Obj("", Member("", "x", "", "", Nested(n), "", NoMembers))
  }

  lemma DeepShape(env: Env, n: nat)
    requires n > 0
    ensures var v := DeepObject(n);
            && v.Obj? && Wf(v) && Convertible(env.ok, v) && HeightMembers(v.ms) == n && Nesting(v) == n + 1
  {
    NestedShape(env, n);
    PlainKeys();
    NothingMembers(env.ok);
    assert NestingMembers(NoMembers) == 0 && HeightMembers(NoMembers) == 0 && AllWs("");
    hide WfString, Nested;
    MemberShape(env, "x", Nested(n), NoMembers);
  }

  lemma DeepIsSimple(env: Env, n: nat)
    requires n > 0
    ensures Simple(env, DeepObject(n).ms)
  {
    hide Nested;
    TargetsAreAscii();
    assert IsAscii("x") && forall k | 0 <= k < |TARGETS| :: |TARGETS[k]| != |"x"|;
    assert !FoldsSome(env, "x");
    assert Simple(env, NoMembers);
  }

  /** The scanner itself goes 1000 values deep, the full decode 10000 containers: the object and 9999 arrays. */
  lemma DepthLimits(env: Env, n: nat)
    requires n > 0
    ensures var s := Unparse(DeepObject(n));
            && (MetaVerdict(env, s).Fire? <==> n <= 1000) && (MetaVerdict(env, s).Defer? <==> n > 1000)
            && (Unmarshal(env, s).Some? <==> n < 10000)
  {
    var v := DeepObject(n);
    var s := Unparse(v);
    DeepShape(env, n);
    DeepIsSimple(env, n);
    hide Document, Unmarshal, MapInto, Wf, Convertible, Unparse, HeightMembers, Nesting, Simple, FieldsOf, MetaVerdict;
    hide DeepObject;
    WholeText(v);
    VerdictOnObjects(env, s, v);
    if n < 10000 {
      UnmarshalOn(env, s, v);
    }
    if Unmarshal(env, s).Some? {
      UnmarshalOnly(env, s);
      var w :| Decodable(env, s, w);
      OneDocument(s, v, w);
    }
  }
}
