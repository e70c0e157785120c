/**
  The document-title rule the site applies after every navigation: a hash
  that names a home-page section gives that section's title; otherwise the
  route's `meta.title`, or `GEMS - ` and the route's name when the title is
  missing or empty.
 */
module AppTitle {
  import opened Wrappers
  import opened JsString
  import opened Router

  /** The section table, with its own keys only: hash key to section label. */
  const SectionNames: map<string, string> := map[
    "collection" := "COLLECTION",
    "features" := "CRAFTSMANSHIP",
    "testimonials" := "TESTIMONIALS",
    "contact" := "CONTACT"
  ]

  /** The table has exactly these four keys, and `features` is the craftsmanship section. */
  lemma SectionTable()
    ensures SectionNames.Keys == {"collection", "features", "testimonials", "contact"}
    ensures SectionNames["features"] == "CRAFTSMANSHIP"
    ensures forall k :: k in SectionNames ==> SectionNames[k] != ""
  {
  }

  /**
    The lookup key of a hash: the hash with its first `#` removed, and
    nothing else (a later `#` stays).
   */
  function SectionKey(hash: string): (key: string)
    ensures '#' !in hash ==> key == hash
    ensures '#' in hash ==>
      exists i :: 0 <= i < |hash| && hash[i] == '#' && '#' !in hash[..i] && key == hash[..i] + hash[i + 1..]
  {
    RemoveFirstChar(hash, '#');
    Replace(hash, "#", "")
  }

  /** A hash as the router reports it, `#` followed by the fragment, looks up the fragment. */
  lemma SectionKeyOfFragment(fragment: string)
    ensures SectionKey("#" + fragment) == fragment
  {
    RemoveLeadingChar("#" + fragment, '#');
    assert ("#" + fragment)[1..] == fragment;
  }

  /** `${name}` in a template: a missing name is rendered as the text `undefined`. */
  function RenderName(name: Option<string>): (text: string)
    ensures name.Some? ==> text == name.value
    ensures name.None? ==> text == "undefined"
  {
    match name
    case Some(n) => n
    case None => "undefined"
  }

  /**
    The fallback rule: the route's `meta.title` when it is a non-empty
    string, otherwise `GEMS - ` and the rendered name (`||` treats the empty
    string like a missing title).
   */
  function RouteTitle(to: RouteLocation): (title: string)
    ensures to.metaTitle.Some? && to.metaTitle.value != "" ==> title == to.metaTitle.value
    ensures to.metaTitle.None? || to.metaTitle.value == "" ==> title == "GEMS - " + RenderName(to.name)
  {
    if to.metaTitle.Some? && to.metaTitle.value != "" then to.metaTitle.value
    else "GEMS - " + RenderName(to.name)
  }

  /**
    The title the section branch sets, if it fires: only for a non-empty
    hash whose key is a section with a non-empty label.
   */
  function SectionTitle(hash: string): (title: Option<string>)
    ensures title.Some? <==> hash != "" && SectionKey(hash) in SectionNames
    ensures title.Some? ==> title.value == "GEMS - " + SectionNames[SectionKey(hash)]
  {
    if hash != "" then
      var key := SectionKey(hash);
      if key in SectionNames && SectionNames[key] != "" then Some("GEMS - " + SectionNames[key]) else None
    else
      None
  }

  /**
    The title rule `updateTitle` is meant to follow for the navigation
    target `to`, with only the table's own keys as sections. The code as
    written also finds inherited property names; that is
    `UpdateTitleAsWritten` below.
   */
  function UpdateTitle(to: RouteLocation): (title: string)
    ensures to.hash != "" && SectionKey(to.hash) in SectionNames ==>
      title == "GEMS - " + SectionNames[SectionKey(to.hash)]
    ensures !(to.hash != "" && SectionKey(to.hash) in SectionNames) ==> title == RouteTitle(to)
  {
    match SectionTitle(to.hash)
    case Some(t) => t
    case None => RouteTitle(to)
  }

  /** A section hash wins over the route's own title, whatever that title is. */
  lemma SectionHashOverridesMeta(to: RouteLocation, fragment: string)
    requires to.hash == "#" + fragment && fragment in SectionNames
    ensures UpdateTitle(to) == "GEMS - " + SectionNames[fragment]
  {
    SectionKeyOfFragment(fragment);
  }

  /** Without a hash only the meta title and the name matter: not the path, nor anything else. */
  lemma EmptyHashUsesRouteOnly(to1: RouteLocation, to2: RouteLocation)
    requires to1.hash == "" && to2.hash == ""
    requires to1.metaTitle == to2.metaTitle && to1.name == to2.name
    ensures UpdateTitle(to1) == UpdateTitle(to2) == RouteTitle(to1)
  {
  }

  /** A hash that names no section is no error: the title falls through to the route rule. */
  lemma UnknownHashFallsThrough(to: RouteLocation, fragment: string)
    requires to.hash == "#" + fragment && fragment !in SectionNames
    ensures UpdateTitle(to) == RouteTitle(to)
  {
    SectionKeyOfFragment(fragment);
  }

  /** Only the first `#` is dropped: `##contact` looks up `#contact`, which is no section. */
  lemma DoubleHashIsNoSection(to: RouteLocation)
    requires to.hash == "#" + "#contact"
    ensures SectionKey(to.hash) == "#contact"
    ensures UpdateTitle(to) == RouteTitle(to)
  {
    assert "#contact" !in SectionNames;
    UnknownHashFallsThrough(to, "#contact");
  }

  /**
    The title after a sequence of `updateTitle` calls, starting from
    `initial`: each call overwrites the previous title.
   */
  function TitleAfter(initial: string, calls: seq<RouteLocation>): (title: string)
    ensures calls == [] ==> title == initial
    // nothing accumulates: after any calls, the title is the one the last call computes
    ensures calls != [] ==> title == UpdateTitle(calls[|calls| - 1])
    decreases |calls|
  {
    if calls == [] then
      initial
    else
      var title := TitleAfter(UpdateTitle(calls[0]), calls[1..]);
      assert |calls| > 1 ==> calls[1..][|calls| - 2] == calls[|calls| - 1];
      title
  }

  /**
    The hook after the navigation and the ready hook both run on the first
    route: the second call leaves the title the first one set.
   */
  lemma RepeatedCallIdempotent(initial: string, to: RouteLocation)
    ensures TitleAfter(initial, [to, to]) == TitleAfter(initial, [to]) == UpdateTitle(to)
  {
  }

  // ---------------------------------------------------------------------
  // With the route table
  // ---------------------------------------------------------------------

  /**
    A navigation to a table path with no hash, or with a hash that names
    no section, shows that entry's own title.
   */
  lemma TableRouteTitle(i: nat, hash: string)
    requires i < |Routes|
    requires hash == "" || SectionKey(hash) !in SectionNames
    ensures UpdateTitle(Locate(Routes[i].path, hash)) == Routes[i].title
  {
    LocateTableRoute(i, hash);
    RouteTitlesBranded();
  }

  /** A path outside the table has neither title nor name: the title reads `GEMS - undefined`. */
  lemma UnmatchedPathTitle(path: string)
    requires forall i :: 0 <= i < |Routes| ==> Routes[i].path != path
    ensures UpdateTitle(Locate(path, "")) == "GEMS - " + "undefined"
  {
    var to := Locate(path, "");
    assert to.name.None? && to.metaTitle.None?;
    assert UpdateTitle(to) == RouteTitle(to);
  }

  /** `/contact` shows `GEMS - CONTACT` and the page starts at the top. */
  lemma ContactPage(from: RouteLocation)
    ensures UpdateTitle(Locate("/contact", "")) == "GEMS - " + "CONTACT"
    ensures ScrollBehavior(Locate("/contact", ""), from, None) == ToOffset(0)
  {
    assert Routes[4] == ContactRoute;
    TableRouteTitle(4, "");
  }

  /** `/#collection` shows the collection title and scrolls smoothly to the section. */
  lemma CollectionSection(from: RouteLocation)
    ensures UpdateTitle(Locate("/", "#" + "collection")) == "GEMS - " + "COLLECTION"
    ensures ScrollBehavior(Locate("/", "#" + "collection"), from, None) == ToElement("#" + "collection", Smooth)
  {
    assert Routes[0] == HomeRoute;
    LocateTableRoute(0, "#" + "collection");
    SectionHashOverridesMeta(Locate("/", "#" + "collection"), "collection");
  }

  // ---------------------------------------------------------------------
  // The lookup as written
  // ---------------------------------------------------------------------

  /**
    What `sectionNames[key]` can evaluate to: the table is a plain object
    literal, so a key it does not own is looked up on `Object.prototype`.
   */
  datatype JsValue =
    | Undefined
    | Str(s: string)
    | NativeFunction(functionName: string)   // a built-in method of `Object.prototype`
    | PrototypeObject                        // `Object.prototype` itself, through `__proto__`

  /** The methods every plain object inherits, by property name, with each function's own name. */
  const PrototypeMethods: map<string, string> := map[
    "constructor" := "Object",
    "hasOwnProperty" := "hasOwnProperty",
    "isPrototypeOf" := "isPrototypeOf",
    "propertyIsEnumerable" := "propertyIsEnumerable",
    "toString" := "toString",
    "toLocaleString" := "toLocaleString",
    "valueOf" := "valueOf",
    "__defineGetter__" := "__defineGetter__",
    "__defineSetter__" := "__defineSetter__",
    "__lookupGetter__" := "__lookupGetter__",
    "__lookupSetter__" := "__lookupSetter__"
  ]

  /** Property lookup on the section table with the prototype chain included. */
  function LookupAsWritten(key: string): (v: JsValue)
    ensures key in SectionNames ==> v == Str(SectionNames[key])
    ensures v.Undefined? <==> key !in SectionNames && key !in PrototypeMethods && key != "__proto__"
  {
    if key in SectionNames then Str(SectionNames[key])
    else if key == "__proto__" then PrototypeObject
    else if key in PrototypeMethods then NativeFunction(PrototypeMethods[key])
    else Undefined
  }

  /** JavaScript truthiness: `undefined` and `""` are false, functions and objects true. */
  function Truthy(v: JsValue): (b: bool)
    ensures !b <==> v.Undefined? || v == Str("")
  {
    match v
    case Undefined => false
    case Str(s) => s != ""
    case _ => true
  }

  /** How a template literal renders each value (built-ins as V8 prints them). */
  function Render(v: JsValue): (text: string)
    ensures v.Str? ==> text == v.s
  {
    match v
    case Undefined => "undefined"
    case Str(s) => s
    case NativeFunction(f) => "function " + f + "() { [native code] }"
    case PrototypeObject => "[object Object]"
  }

  /** `updateTitle` exactly as written, with the inherited properties in the lookup. */
  function UpdateTitleAsWritten(to: RouteLocation): (title: string)
    ensures to.hash == "" ==> title == RouteTitle(to)
  {
    if to.hash != "" then
      var v := LookupAsWritten(SectionKey(to.hash));
      if Truthy(v) then "GEMS - " + Render(v) else RouteTitle(to)
    else
      RouteTitle(to)
  }

  /** For every key other than an inherited property name, the code as written and the own-key lookup agree. */
  lemma AsWrittenAgreesOnOwnKeys(to: RouteLocation)
    requires to.hash == "" || (SectionKey(to.hash) !in PrototypeMethods && SectionKey(to.hash) != "__proto__")
    ensures UpdateTitleAsWritten(to) == UpdateTitle(to)
  {
    SectionTable();
  }

  /** `toString` is no section but an inherited method of every plain object. */
  lemma ToStringInherited()
    ensures "toString" !in SectionNames
    ensures LookupAsWritten("toString") == NativeFunction("toString")
  {
  }

  /**
    The discrepancy: on any page, the hash `#toString` sets the title to the
    rendered source of a built-in function, where the route's own title was
    meant.
   */
  lemma ToStringHashShowsFunction(to: RouteLocation)
    requires to.hash == "#" + "toString"
    ensures UpdateTitleAsWritten(to) == "GEMS - " + ("function " + "toString" + "() { [native code] }")
    ensures UpdateTitle(to) == RouteTitle(to)
  {
    SectionKeyOfFragment("toString");
    ToStringInherited();
  }

  /** On the home page, `/#toString` should read `GEMS`, the home page's own title. */
  lemma HomeToStringTitle()
    ensures UpdateTitle(Locate("/", "#" + "toString")) == "GEMS"
  {
    assert Routes[0] == HomeRoute;
    SectionKeyOfFragment("toString");
    ToStringInherited();
    TableRouteTitle(0, "#" + "toString");
  }
}
