# GEMS site core, modelled in Dafny

This project models the decision logic of the GEMS brochure site. All of it is pure. It has four parts:

- **Document title** (`resources/js/main.ts`). After every navigation `updateTitle` picks the page title. The rule it is meant to follow is `AppTitle.UpdateTitle`. A hash that names a home-page section (`#collection`, `#features`, `#testimonials`, `#contact`) gives `GEMS - <section label>`. Otherwise the title is the route's `meta.title`, or `GEMS - <route name>` when that title is missing or empty. The code as written is `AppTitle.UpdateTitleAsWritten`. It differs for a hash that names a property every JavaScript object inherits; see "## Findings". Module `AppTitle`.
- **Route table and scrolling** (`resources/js/router/index.ts`). The table holds 21 static entries `{path, name, meta.title}`. `scrollBehavior` chooses between the saved position, a smooth scroll to the hash element and the top of the page. Module `Router`.
- **Chunk assignment** (`vite.config.ts`, `manualChunks`). It maps a module id to a chunk name, or to none, through ordered substring tests. Module `ViteConfig`.
- **Asset output paths** (`vite.config.ts`, `assetFileNames`). It takes the text after the last `.` and tests it against three case-insensitive, unanchored regular expressions, in order. Module `ViteConfig`.

The JavaScript string operations these rely on are modelled as functions on `seq<char>` in `JsString`: `includes`, `indexOf`, `replace` with a string pattern, `split` and the last element, and ASCII lower-casing. Each carries its own contract. `Wrappers` holds `Option`.

How the model is built:

- Every entity is a value and every operation a function, because the source updates no state. `updateTitle` returns the title instead of assigning `document.title`.
- The route table is a constant sequence of `Route` values.
- Paths and titles are written as concatenations of shorter literals (`"GEMS - " + "CONTACT"`). Each concatenation spells exactly the source's string.
- A regular expression `/a|b|c/i.test(text)` is modelled in two ways. `RegexTest` follows the language's semantics: some alternative matches at some position of the text, both sides case-folded. The function that computes it, `TestIgnoreCase`, looks for each alternative in the lower-cased text.
- `jpe?g` is written out as its two spellings, `jpg` and `jpeg`, and `woff2?` as `woff` and `woff2`.

## Model

| member | source | states |
|---|---|---|
| JsString.Includes | vite.config.ts:36-70 | `id.includes(t)` holds exactly when `t` occurs at some index of `id` |
| JsString.IndexOf | resources/js/main.ts:19 | the first index where the pattern occurs, or -1 exactly when it occurs nowhere |
| JsString.Replace | resources/js/main.ts:19 | a string pattern that does not occur leaves the text unchanged; otherwise its first occurrence is replaced and the text before and after it is kept |
| JsString.RemoveFirstChar | resources/js/main.ts:19 | replacing a one-character pattern by `""` removes its first occurrence and no other character |
| JsString.Split | vite.config.ts:78 | `split` yields at least one part, and no part holds the separator |
| JsString.SplitJoin | vite.config.ts:78 | joining the parts of `split` with the separator gives the original name back |
| JsString.SplitCount | vite.config.ts:78 | `split` yields one more part than the name has separators |
| JsString.LastSegment | vite.config.ts:78-79 | the last part is a dot-free suffix of the name; it is the whole name exactly when the name has no dot, and otherwise is preceded by a dot |
| JsString.LastSegmentAfter | vite.config.ts:78-79 | when position `i` holds the last dot, the last part is exactly the text after `i` |
| JsString.AsciiLower | vite.config.ts:80 | lower-casing keeps the length and folds each character independently |
| Router.RoutePathsDistinct | resources/js/router/index.ts:26-153 | no two entries of the table share a path |
| Router.RouteNamesDistinct | resources/js/router/index.ts:26-153 | no two entries of the table share a name |
| Router.RouteKeysDistinct | resources/js/router/index.ts:26-153 | paths and names are both unique across the whole table |
| Router.RouteTitlesBranded | resources/js/router/index.ts:31-151 | every `meta.title` is non-empty and is either `GEMS` or starts with `GEMS - ` |
| Router.RoutePathsStatic | resources/js/router/index.ts:28-148 | every path starts with `/` and contains no `:` parameter marker |
| Router.RouteEntriesWellFormed | resources/js/router/index.ts:26-153 | the title and path conventions hold for every entry |
| Router.SitePagePathsDistinct | resources/js/router/index.ts:27-92 | the eleven site pages have distinct paths |
| Router.SitePageNamesDistinct | resources/js/router/index.ts:27-92 | the eleven site pages have distinct names |
| Router.BlogPostsDistinct | resources/js/router/index.ts:93-122 | the five blog posts have distinct paths and names |
| Router.ServicePagesDistinct | resources/js/router/index.ts:123-152 | the five service pages have distinct paths and names |
| Router.SiteAndServicePathsApart | resources/js/router/index.ts:27-152 | no site page shares a path with a service page |
| Router.SiteAndServiceNamesApart | resources/js/router/index.ts:27-152 | no site page shares a name with a service page |
| Router.ShortKeysOutsideBlog | resources/js/router/index.ts:27-152 | proof aid: outside the blog posts, paths have at most 21 characters and names at most 19, so they cannot equal a blog post's |
| Router.LongKeysInBlog | resources/js/router/index.ts:93-122 | proof aid: every blog post's path and name is longer than any outside the blog, which separates the runs |
| Router.SitePagesWellFormed | resources/js/router/index.ts:27-92 | site pages follow the title and path conventions |
| Router.BlogPostsWellFormed | resources/js/router/index.ts:93-122 | blog posts follow the title and path conventions |
| Router.ServicePagesWellFormed | resources/js/router/index.ts:123-152 | service pages follow the title and path conventions |
| Router.DistinctPathsConcat | resources/js/router/index.ts:26-153 | two runs with unique paths and no path in common concatenate to a run with unique paths |
| Router.DistinctNamesConcat | resources/js/router/index.ts:26-153 | the same for names |
| Router.DisjointConcat | resources/js/router/index.ts:26-153 | two runs that are each apart from a third run stay apart from it when joined |
| Router.EntryFactsConcat | resources/js/router/index.ts:26-153 | the per-entry conventions carry over to a concatenation |
| Router.Resolve | resources/js/router/index.ts:26-153 | exact-path lookup gives none exactly when no entry has the path, and otherwise the first entry that has it |
| Router.ResolveUnique | resources/js/router/index.ts:26-153 | with unique paths, lookup finds `r` exactly when `r` is an entry with that path |
| Router.AtMostOneRoutePerPath | resources/js/router/index.ts:26-153 | any two entries with the same path are the same entry |
| Router.Locate | resources/js/router/index.ts:26-153 | the hooks see the matched entry's name and title together, or neither when no entry has the path |
| Router.LocateTableRoute | resources/js/router/index.ts:26-153 | every entry is found by its own path, whatever the hash |
| Router.ScrollBehavior | resources/js/router/index.ts:158-169 | the answer restores a position exactly when one was saved; it scrolls to an element exactly when none was saved and there is a hash; it goes to an offset exactly when there is neither |
| Router.SavedPositionRestored | resources/js/router/index.ts:159-160 | a saved position is returned unchanged, even when the target has a hash |
| Router.HashScrollsSmoothly | resources/js/router/index.ts:161-165 | without a saved position, a hash gives `{el: hash, behavior: 'smooth'}` with the hash passed on as it is |
| Router.NoHashGoesToTop | resources/js/router/index.ts:166-167 | with no saved position and no hash, the answer is `{top: 0}` |
| Router.ScrollIgnoresFrom | resources/js/router/index.ts:158-169 | the route navigated away from never changes the answer |
| AppTitle.SectionTable | resources/js/main.ts:9-14 | the table has exactly the keys `collection`, `features`, `testimonials` and `contact`, `features` maps to `CRAFTSMANSHIP`, and no label is empty |
| AppTitle.SectionKey | resources/js/main.ts:19 | the key is the hash with its first `#` removed and every later `#` kept; a hash without `#` is its own key |
| AppTitle.SectionKeyOfFragment | resources/js/main.ts:19 | `#` followed by a fragment looks up that fragment |
| AppTitle.RenderName | resources/js/main.ts:28 | a present name renders as itself, and a missing one as `undefined` |
| AppTitle.RouteTitle | resources/js/main.ts:27-29 | a non-empty meta title is used verbatim; a missing or empty one gives `GEMS - ` and the rendered name |
| AppTitle.SectionTitle | resources/js/main.ts:18-24 | the section branch fires exactly for a non-empty hash whose key is in the table, and gives `GEMS - ` and the label |
| AppTitle.UpdateTitle | resources/js/main.ts:16-30 | the intended rule, with the table's own keys only: a section hash gives `GEMS - <label>`, and any other target gives the route rule (the code as written is UpdateTitleAsWritten) |
| AppTitle.SectionHashOverridesMeta | resources/js/main.ts:18-24 | a section hash decides the title whatever the route's meta title and name |
| AppTitle.EmptyHashUsesRouteOnly | resources/js/main.ts:18-28 | with no hash, the title depends only on the meta title and the name |
| AppTitle.UnknownHashFallsThrough | resources/js/main.ts:20-28 | a hash naming no section is no error: the route rule applies |
| AppTitle.DoubleHashIsNoSection | resources/js/main.ts:19-21 | `##contact` looks up the key `#contact`, which is no section, so the route rule applies |
| AppTitle.TitleAfter | resources/js/main.ts:32-40 | with no calls the title stays the initial one; after any non-empty sequence of calls it is the one the last call computes, so nothing accumulates |
| AppTitle.RepeatedCallIdempotent | resources/js/main.ts:32-40 | the `afterEach` call and the `isReady` call on the same route leave the same title as one call |
| AppTitle.TableRouteTitle | resources/js/main.ts:16-30 | a table path with no section hash shows that entry's own `meta.title` |
| AppTitle.UnmatchedPathTitle | resources/js/main.ts:28 | a path outside the table, with no hash, shows `GEMS - undefined` |
| AppTitle.ContactPage | resources/js/router/index.ts:51-56 | `/contact` shows `GEMS - CONTACT` and scrolls to the top |
| AppTitle.CollectionSection | resources/js/main.ts:9-24 | `/#collection` shows `GEMS - COLLECTION` and scrolls smoothly to `#collection` |
| AppTitle.LookupAsWritten | resources/js/main.ts:20 | `sectionNames[key]` gives the own label for a table key, and `undefined` only when the key is neither a table key nor an inherited property name |
| AppTitle.Truthy | resources/js/main.ts:21 | only `undefined` and `""` are falsy among the values the lookup can give |
| AppTitle.Render | resources/js/main.ts:22 | a string renders as itself in the template |
| AppTitle.UpdateTitleAsWritten | resources/js/main.ts:16-30 | as written, with no hash the title follows the route rule |
| AppTitle.AsWrittenAgreesOnOwnKeys | resources/js/main.ts:16-30 | the code as written and the own-key model give the same title unless the key is an inherited property name |
| AppTitle.ToStringInherited | resources/js/main.ts:9-20 | `toString` is no section key, yet the lookup finds the inherited method |
| AppTitle.ToStringHashShowsFunction | resources/js/main.ts:18-22 | as written, hash `#toString` gives `GEMS - function toString() { [native code] }` on any page, where the route rule was meant |
| AppTitle.HomeToStringTitle | resources/js/main.ts:16-30 | the intended title of `/#toString` is the home page's own `GEMS` |
| ViteConfig.MentionsBelowFold | vite.config.ts:55-57 | the `||` chain holds exactly when the id mentions one of the five below-the-fold markers |
| ViteConfig.ManualChunks | vite.config.ts:34-73 | the callback returns `undefined` exactly when the id mentions none of `node_modules`, `components`, `pages` and `layouts` |
| ViteConfig.PrefixCarries | vite.config.ts:37-51 | an id that mentions a string also mentions each of its prefixes |
| ViteConfig.NarrowNamesContainBroad | vite.config.ts:37-51 | `vue-router` implies `vue`, and `DiamondHero` or `DiamondShowcase` implies `Diamond` |
| ViteConfig.VendorChunks | vite.config.ts:36-45 | among dependencies: `vue-router` iff the id mentions `vue-router`; `vue-core` iff it mentions `vue` but not `vue-router`; `vendor` iff it does not mention `vue` |
| ViteConfig.NodeModulesFirst | vite.config.ts:36-45 | a dependency always goes to one of the three vendor chunks, never a component, page or layout chunk |
| ViteConfig.DiamondHeroChunk | vite.config.ts:47-50 | a component goes to `diamond-hero` exactly when it mentions `DiamondHero` or `DiamondShowcase` |
| ViteConfig.DiamondComponentsChunk | vite.config.ts:47-53 | a component goes to `diamond-components` exactly when it mentions `Diamond` but neither hero name |
| ViteConfig.PlainComponentChunks | vite.config.ts:54-60 | a component goes to `below-fold` exactly when it mentions no `Diamond` and one of the markers; it goes to `components` exactly when it mentions neither |
| ViteConfig.HeroRuleShadowsDiamondRule | vite.config.ts:48-53 | every hero component would also match the `Diamond` test, and still goes to `diamond-hero` |
| ViteConfig.PageChunks | vite.config.ts:63-68 | a page goes to `home-page` exactly when it mentions `Home`, and to `pages` otherwise |
| ViteConfig.RemainingChunks | vite.config.ts:69-73 | layouts go to `layouts`, and every other id gets no chunk |
| ViteConfig.Canonicalize | vite.config.ts:80 | case folding leaves no lower-case ASCII letter and changes nothing but such letters |
| ViteConfig.FoldAgainstLower | vite.config.ts:80 | against a lower-case letter or digit, folding both sides equals lower-casing the text |
| ViteConfig.MatchesAtLowered | vite.config.ts:80 | a folded match of a lower-case alternative at `p` is an occurrence in the lower-cased text at `p` |
| ViteConfig.TestIgnoreCase | vite.config.ts:80-88 | the substring search over the lower-cased text decides exactly the case-insensitive, unanchored regular-expression test |
| ViteConfig.AlternativesLowerAlnum | vite.config.ts:80-86 | every alternative of the three patterns is lower-case letters and digits |
| ViteConfig.AssetExtension | vite.config.ts:78-79 | the extension is the dot-free text after the last `.`, or the whole name exactly when the name has no `.` |
| ViteConfig.Category | vite.config.ts:80-89 | image iff the image test passes; font iff the image test fails and the font test passes; media iff the first two fail and the media test passes; other iff all three fail |
| ViteConfig.AssetFileNames | vite.config.ts:77-90 | an extension passing the image test gives `assets/img/[name]-[hash][extname]`; otherwise the font test gives `assets/fonts/…`; otherwise the media test gives `assets/media/…`; an extension passing none gives `assets/[ext]/…` |
| ViteConfig.ShortExtensionIsOther | vite.config.ts:80-89 | an extension shorter than three characters passes none of the tests |
| ViteConfig.UpperCaseImage | vite.config.ts:78-81 | `logo.PNG` has the extension `PNG` and goes to `assets/img/`, as the test ignores case |
| ViteConfig.UnanchoredMatch | vite.config.ts:78-81 | a name without a dot is its own extension, and `favicon` holds `ico`, so it goes to `assets/img/` |
| ViteConfig.UnknownExtensionKeepsOwnDirectory | vite.config.ts:78-89 | `archive.gz` has the extension `gz` and gets the `assets/[ext]/` template |

## Left out

- Lazy page loading: the `() => import(...)` loaders of `resources/js/router/index.ts:4-24` are the bundler's dynamic imports. The model has no component field.
- Effects: the `document.title` assignment, the actual scrolling, and the hook registration with `router.afterEach` and `router.isReady()` and its promise timing. Also `createApp`, `app.use`, `mount` and the `body` class update. Only the values these receive are modelled. `TitleAfter` stands for the sequence of calls.
- vue-router matching: the router matches case-insensitively and tolerates a trailing slash. Router.Locate does exact-path lookup over the table only, so `/Contact` or `/contact/` count as unmatched here. The router's saved-position history is a parameter of Router.ScrollBehavior.
- Router.ScrollBehavior: the saved position is a pair of integers. Its floating-point coordinates are left out because they play no part in the choice.
- `assetInfo.name` can be missing in the bundler's API, and the callback would then throw. ViteConfig.AssetFileNames always takes a name.
- ViteConfig.Canonicalize: folds ASCII only. The real folding also maps non-ASCII letters, but never onto ASCII, and every pattern here is ASCII, so the test gives the same answer.
- The other build options (plugins, minifier and tree-shaking settings, dev server, dependency pre-bundling, `chunkFileNames`, `entryFileNames`) are configuration literals with no logic.
- `scripts/optimize-diamond-logo.js` is file-system I/O around an image library, with no decision logic. It is not part of this model.
- AppTitle.Render: only `undefined`, strings and the members of `Object.prototype` are rendered. A function renders as the V8 engine prints a built-in (`function toString() { [native code] }`); other engines may print it differently.

## Findings

| source | as written | input that shows it | evidently intended | confidence | as-written member | corrected member |
|---|---|---|---|---|---|---|
| resources/js/main.ts:9-22 | `sectionNames[sectionId]` reads a plain object literal, so a key the table does not own is looked up on `Object.prototype`. The inherited methods are truthy and become the title. | the hash `#toString` on any page, e.g. `/#toString` | only the four own keys are sections; any other hash falls through to the route's title (`GEMS` on the home page) | not executed | AppTitle.ToStringHashShowsFunction | AppTitle.HomeToStringTitle |
