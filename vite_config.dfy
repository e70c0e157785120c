/**
  The two classification callbacks of the production build: which chunk a
  module goes to (`manualChunks`), and under which output path an emitted
  asset is written (`assetFileNames`).
 */
module ViteConfig {
  import opened Wrappers
  import opened JsString

  // ---------------------------------------------------------------------
  // Chunk assignment
  // ---------------------------------------------------------------------

  /** The component ids that go to the `below-fold` chunk. */
  const BelowFoldMarkers: seq<string> := ["StatsSection", "LuxuryFeatures", "TestimonialsSection", "FAQSection", "CTASection"]

  /** `id` mentions at least one of `markers`. */
  ghost predicate MentionsAny(id: string, markers: seq<string>) {
    exists k :: 0 <= k < |markers| && Contains(id, markers[k])
  }

  /** The `||` chain of the below-the-fold test, marker by marker. */
  function MentionsBelowFold(id: string): (b: bool)
    ensures b <==> MentionsAny(id, BelowFoldMarkers)
  {
    var b := Includes(id, "StatsSection") || Includes(id, "LuxuryFeatures")
      || Includes(id, "TestimonialsSection") || Includes(id, "FAQSection") || Includes(id, "CTASection");
    assert MentionsAny(id, BelowFoldMarkers) ==> b by {
      if MentionsAny(id, BelowFoldMarkers) {
        var k :| 0 <= k < |BelowFoldMarkers| && Contains(id, BelowFoldMarkers[k]);
      }
    }
    assert b ==> MentionsAny(id, BelowFoldMarkers) by {
      if Includes(id, "StatsSection") { assert Contains(id, BelowFoldMarkers[0]); }
      else if Includes(id, "LuxuryFeatures") { assert Contains(id, BelowFoldMarkers[1]); }
      else if Includes(id, "TestimonialsSection") { assert Contains(id, BelowFoldMarkers[2]); }
      else if Includes(id, "FAQSection") { assert Contains(id, BelowFoldMarkers[3]); }
      else if Includes(id, "CTASection") { assert Contains(id, BelowFoldMarkers[4]); }
    }
    b
  }

  /**
    The chunk a module id is placed in, or `None` when the callback returns
    `undefined` and the bundler decides alone. Each test is a substring
    test, tried in the order the callback tries them.
   */
  function ManualChunks(id: string): (chunk: Option<string>)
    ensures chunk.None? <==>
      !Contains(id, "node_modules") && !Contains(id, "components") && !Contains(id, "pages") && !Contains(id, "layouts")
  {
    if Includes(id, "node_modules") then
      if Includes(id, "vue") && !Includes(id, "vue-router") then Some("vue-core")
      else if Includes(id, "vue-router") then Some("vue-router")
      else Some("vendor")
    else if Includes(id, "components") then
      if Includes(id, "DiamondHero") || Includes(id, "DiamondShowcase") then Some("diamond-hero")
      else if Includes(id, "Diamond") then Some("diamond-components")
      else if MentionsBelowFold(id) then Some("below-fold")
      else Some("components")
    else if Includes(id, "pages") then
      if Includes(id, "Home") then Some("home-page") else Some("pages")
    else if Includes(id, "layouts") then Some("layouts")
    else None
  }

  /** A string occurs wherever a string it is a prefix of occurs. */
  lemma PrefixCarries(id: string, longer: string, shorter: string)
    requires shorter <= longer && Contains(id, longer)
    ensures Contains(id, shorter)
  {
    PrefixContained(longer, shorter);
    ContainsTransitive(id, longer, shorter);
  }

  /** Every id that mentions `vue-router` mentions `vue`; every `DiamondHero` or `DiamondShowcase` mentions `Diamond`. */
  lemma NarrowNamesContainBroad(id: string)
    ensures Contains(id, "vue-router") ==> Contains(id, "vue")
    ensures Contains(id, "DiamondHero") ==> Contains(id, "Diamond")
    ensures Contains(id, "DiamondShowcase") ==> Contains(id, "Diamond")
  {
    if Contains(id, "vue-router") {
      PrefixCarries(id, "vue-router", "vue");
    }
    if Contains(id, "DiamondHero") {
      PrefixCarries(id, "DiamondHero", "Diamond");
    }
    if Contains(id, "DiamondShowcase") {
      PrefixCarries(id, "DiamondShowcase", "Diamond");
    }
  }

  /**
    Dependencies: `vue-router` gets its own chunk, the rest of Vue goes to
    `vue-core`, and every other package (exactly those not mentioning `vue`)
    to `vendor`, whatever else the id mentions.
   */
  lemma VendorChunks(id: string)
    requires Contains(id, "node_modules")
    ensures ManualChunks(id) == Some("vue-router") <==> Contains(id, "vue-router")
    ensures ManualChunks(id) == Some("vue-core") <==> Contains(id, "vue") && !Contains(id, "vue-router")
    ensures ManualChunks(id) == Some("vendor") <==> !Contains(id, "vue")
  {
    NarrowNamesContainBroad(id);
  }

  /** A dependency is never put in a component, page or layout chunk. */
  lemma NodeModulesFirst(id: string)
    requires Contains(id, "node_modules")
    ensures ManualChunks(id) in {Some("vue-core"), Some("vue-router"), Some("vendor")}
  {
  }

  /** Components: the hero and the showcase go to `diamond-hero`. */
  lemma DiamondHeroChunk(id: string)
    requires !Contains(id, "node_modules") && Contains(id, "components")
    ensures ManualChunks(id) == Some("diamond-hero") <==> Contains(id, "DiamondHero") || Contains(id, "DiamondShowcase")
  {
  }

  /** Other components mentioning `Diamond` go to `diamond-components`. */
  lemma DiamondComponentsChunk(id: string)
    requires !Contains(id, "node_modules") && Contains(id, "components")
    ensures ManualChunks(id) == Some("diamond-components") <==>
      Contains(id, "Diamond") && !Contains(id, "DiamondHero") && !Contains(id, "DiamondShowcase")
  {
    var chunk := ManualChunks(id);
    if Contains(id, "DiamondHero") || Contains(id, "DiamondShowcase") {
      assert chunk == Some("diamond-hero");
    } else if !Contains(id, "Diamond") {
      assert chunk == Some("below-fold") || chunk == Some("components");
    }
  }

  /**
    The remaining components: the below-the-fold sections to `below-fold`,
    the rest to `components`; neither mentions `Diamond`.
   */
  lemma PlainComponentChunks(id: string)
    requires !Contains(id, "node_modules") && Contains(id, "components")
    ensures ManualChunks(id) == Some("below-fold") <==> !Contains(id, "Diamond") && MentionsAny(id, BelowFoldMarkers)
    ensures ManualChunks(id) == Some("components") <==> !Contains(id, "Diamond") && !MentionsAny(id, BelowFoldMarkers)
  {
    NarrowNamesContainBroad(id);
  }

  /** The diamond components would all match the broader `Diamond` rule: the order of the two tests decides. */
  lemma HeroRuleShadowsDiamondRule(id: string)
    requires !Contains(id, "node_modules") && Contains(id, "components")
    requires Contains(id, "DiamondHero") || Contains(id, "DiamondShowcase")
    ensures Contains(id, "Diamond") && ManualChunks(id) == Some("diamond-hero")
  {
    NarrowNamesContainBroad(id);
  }

  /** Pages: the home page has its own chunk, every other page shares `pages`. */
  lemma PageChunks(id: string)
    requires !Contains(id, "node_modules") && !Contains(id, "components") && Contains(id, "pages")
    ensures ManualChunks(id) == Some("home-page") <==> Contains(id, "Home")
    ensures ManualChunks(id) == Some("pages") <==> !Contains(id, "Home")
  {
  }

  /** Layouts share `layouts`; any other id is left to the bundler. */
  lemma RemainingChunks(id: string)
    requires !Contains(id, "node_modules") && !Contains(id, "components") && !Contains(id, "pages")
    ensures ManualChunks(id) == Some("layouts") <==> Contains(id, "layouts")
    ensures ManualChunks(id).None? <==> !Contains(id, "layouts")
  {
  }

  // ---------------------------------------------------------------------
  // Asset output paths
  // ---------------------------------------------------------------------

  /**
    Case folding as a case-insensitive regular expression applies it when
    both sides are compared: lower-case ASCII letters go to upper case.
    Other characters are kept; the real folding also maps non-ASCII
    letters, but never onto ASCII, so against the ASCII patterns below the
    difference does not show.
   */
  function Canonicalize(c: char): (d: char)
    ensures !('a' <= d <= 'z')
    ensures d == c || ('a' <= c <= 'z' && d as int == c as int - 32)
  {
    if 'a' <= c <= 'z' then (c as int - 32) as char else c
  }

  /** `alt` matches `text` at position `p`, character by character after folding. */
  ghost predicate MatchesAt(text: string, p: nat, alt: string) {
    p + |alt| <= |text| && forall j :: 0 <= j < |alt| ==> Canonicalize(text[p + j]) == Canonicalize(alt[j])
  }

  /** `/a|b|…/i.test(text)`: some alternative matches somewhere in `text` (the pattern is not anchored). */
  ghost predicate RegexTest(alternatives: seq<string>, text: string) {
    exists k, p :: 0 <= k < |alternatives| && 0 <= p <= |text| && MatchesAt(text, p, alternatives[k])
  }

  /** Lower-case ASCII letters and digits only, as every alternative of the three patterns. */
  predicate LowerAlnum(alt: string) {
    forall j :: 0 <= j < |alt| ==> 'a' <= alt[j] <= 'z' || '0' <= alt[j] <= '9'
  }

  /** Against a lower-case letter or a digit, folding both sides is the same as lowering the text. */
  lemma FoldAgainstLower(c: char, a: char)
    requires 'a' <= a <= 'z' || '0' <= a <= '9'
    ensures Canonicalize(c) == Canonicalize(a) <==> LowerChar(c) == a
  {
  }

  /** For such an alternative, a folded match at `p` is an occurrence in the lowered text. */
  lemma MatchesAtLowered(text: string, p: nat, alt: string)
    requires LowerAlnum(alt) && p <= |text|
    ensures MatchesAt(text, p, alt) <==> alt <= AsciiLower(text)[p..]
  {
    var lowered := AsciiLower(text);
    var rest := lowered[p..];
    if p + |alt| <= |text| {
      forall j | 0 <= j < |alt|
        ensures (Canonicalize(text[p + j]) == Canonicalize(alt[j])) == (rest[j] == alt[j])
      {
        assert rest[j] == lowered[p + j] == LowerChar(text[p + j]);
        FoldAgainstLower(text[p + j], alt[j]);
      }
      assert (alt <= rest) == (forall j :: 0 <= j < |alt| ==> rest[j] == alt[j]);
    } else {
      assert |rest| < |alt|;
    }
  }

  /**
    The test as computed: lower the text once and look for each
    alternative in turn.
   */
  function TestIgnoreCase(alternatives: seq<string>, text: string): (b: bool)
    requires forall k :: 0 <= k < |alternatives| ==> LowerAlnum(alternatives[k])
    ensures b <==> RegexTest(alternatives, text)
    decreases |alternatives|
  {
    if alternatives == [] then
      false
    else
      var here := Includes(AsciiLower(text), alternatives[0]);
      var later := TestIgnoreCase(alternatives[1..], text);
      assert here <==> exists p :: 0 <= p <= |text| && MatchesAt(text, p, alternatives[0]) by {
        if here {
          var p :| 0 <= p <= |AsciiLower(text)| && alternatives[0] <= AsciiLower(text)[p..];
          MatchesAtLowered(text, p, alternatives[0]);
        }
        if exists p :: 0 <= p <= |text| && MatchesAt(text, p, alternatives[0]) {
          var p :| 0 <= p <= |text| && MatchesAt(text, p, alternatives[0]);
          MatchesAtLowered(text, p, alternatives[0]);
        }
      }
      assert later <==> exists k, p :: 1 <= k < |alternatives| && 0 <= p <= |text| && MatchesAt(text, p, alternatives[k]) by {
        if later {
          var k, p :| 0 <= k < |alternatives[1..]| && 0 <= p <= |text| && MatchesAt(text, p, alternatives[1..][k]);
          assert alternatives[1..][k] == alternatives[k + 1];
        }
        if exists k, p :: 1 <= k < |alternatives| && 0 <= p <= |text| && MatchesAt(text, p, alternatives[k]) {
          var k, p :| 1 <= k < |alternatives| && 0 <= p <= |text| && MatchesAt(text, p, alternatives[k]);
          assert alternatives[1..][k - 1] == alternatives[k];
        }
      }
      here || later
  }

  /** `png|jpe?g|svg|gif|tiff|bmp|ico`, with `jpe?g` written out as its two spellings. */
  const ImageAlternatives: seq<string> := ["png", "jpg", "jpeg", "svg", "gif", "tiff", "bmp", "ico"]

  /** `woff2?|eot|ttf|otf`, with `woff2?` written out. */
  const FontAlternatives: seq<string> := ["woff", "woff2", "eot", "ttf", "otf"]

  /** `mp4|webm|ogg|mov|m4v`. */
  const MediaAlternatives: seq<string> := ["mp4", "webm", "ogg", "mov", "m4v"]

  lemma AlternativesLowerAlnum()
    ensures forall k :: 0 <= k < |ImageAlternatives| ==> LowerAlnum(ImageAlternatives[k])
    ensures forall k :: 0 <= k < |FontAlternatives| ==> LowerAlnum(FontAlternatives[k])
    ensures forall k :: 0 <= k < |MediaAlternatives| ==> LowerAlnum(MediaAlternatives[k])
  {
  }

  /** The four output directories under `assets/`. */
  datatype AssetCategory = Image | Font | Media | Other

  /** The text after the last `.` of the asset's name, or the whole name when it has none. */
  function AssetExtension(name: string): (ext: string)
    ensures '.' !in ext && |ext| <= |name| && ext == name[|name| - |ext|..]
    ensures ext == name <==> '.' !in name
    ensures ext != name ==> name[|name| - |ext| - 1] == '.'
  {
    LastSegment(name, '.')
  }

  /** The category the three tests pick for an extension, the first test that passes winning. */
  function Category(ext: string): (c: AssetCategory)
    ensures c == Image <==> RegexTest(ImageAlternatives, ext)
    ensures c == Font <==> !RegexTest(ImageAlternatives, ext) && RegexTest(FontAlternatives, ext)
    ensures c == Media <==>
      !RegexTest(ImageAlternatives, ext) && !RegexTest(FontAlternatives, ext) && RegexTest(MediaAlternatives, ext)
    ensures c == Other <==>
      !RegexTest(ImageAlternatives, ext) && !RegexTest(FontAlternatives, ext) && !RegexTest(MediaAlternatives, ext)
  {
    AlternativesLowerAlnum();
    if TestIgnoreCase(ImageAlternatives, ext) then Image
    else if TestIgnoreCase(FontAlternatives, ext) then Font
    else if TestIgnoreCase(MediaAlternatives, ext) then Media
    else Other
  }

  /**
    The output-path template returned for an asset called `name`: the first
    of the image, font and media tests that its extension passes picks the
    directory, and an extension that passes none keeps the bundler's `[ext]`.
   */
  function AssetFileNames(name: string): (template: string)
    ensures RegexTest(ImageAlternatives, AssetExtension(name)) ==>
      template == "assets/img/[name]-[hash][extname]"
    ensures !RegexTest(ImageAlternatives, AssetExtension(name)) && RegexTest(FontAlternatives, AssetExtension(name)) ==>
      template == "assets/fonts/[name]-[hash][extname]"
    ensures (!RegexTest(ImageAlternatives, AssetExtension(name)) && !RegexTest(FontAlternatives, AssetExtension(name))
             && RegexTest(MediaAlternatives, AssetExtension(name))) ==>
      template == "assets/media/[name]-[hash][extname]"
    ensures (!RegexTest(ImageAlternatives, AssetExtension(name)) && !RegexTest(FontAlternatives, AssetExtension(name))
             && !RegexTest(MediaAlternatives, AssetExtension(name))) ==>
      template == "assets/[ext]/[name]-[hash][extname]"
  {
    match Category(AssetExtension(name))
    case Image => "assets/img/[name]-[hash][extname]"
    case Font => "assets/fonts/[name]-[hash][extname]"
    case Media => "assets/media/[name]-[hash][extname]"
    case Other => "assets/[ext]/[name]-[hash][extname]"
  }

  /** An extension shorter than every alternative passes none of the three tests. */
  lemma ShortExtensionIsOther(ext: string)
    requires |ext| < 3
    ensures Category(ext) == Other
  {
    assert forall k :: 0 <= k < |ImageAlternatives| ==> |ImageAlternatives[k]| >= 3;
    assert forall k :: 0 <= k < |FontAlternatives| ==> |FontAlternatives[k]| >= 3;
    assert forall k :: 0 <= k < |MediaAlternatives| ==> |MediaAlternatives[k]| >= 3;
  }

  /** An upper-case extension is still an image: `logo.PNG` goes to `assets/img/`. */
  lemma UpperCaseImage()
    ensures AssetExtension("logo.PNG") == "PNG"
    ensures AssetFileNames("logo.PNG") == "assets/img/[name]-[hash][extname]"
  {
    LastSegmentAfter("logo.PNG", '.', 4);
    var ext := AssetExtension("logo.PNG");
    assert ext == "PNG" by {
      assert "logo.PNG"[5..] == "PNG";
    }
    assert MatchesAt(ext, 0, ImageAlternatives[0]);
    assert Category(ext) == Image;
  }

  /** Without a dot the whole name is the extension, and `favicon` holds `ico`: an image. */
  lemma UnanchoredMatch()
    ensures AssetExtension("favicon") == "favicon"
    ensures AssetFileNames("favicon") == "assets/img/[name]-[hash][extname]"
  {
    assert MatchesAt("favicon", 3, ImageAlternatives[7]);
    assert Category("favicon") == Image;
  }

  /** `archive.gz` has the extension `gz`, which no test knows: the bundler's `[ext]` directory. */
  lemma UnknownExtensionKeepsOwnDirectory()
    ensures AssetExtension("archive.gz") == "gz"
    ensures AssetFileNames("archive.gz") == "assets/[ext]/[name]-[hash][extname]"
  {
    LastSegmentAfter("archive.gz", '.', 7);
    var ext := AssetExtension("archive.gz");
    assert ext == "gz" by {
      assert "archive.gz"[8..] == "gz";
    }
    ShortExtensionIsOther(ext);
  }
}
