/**
  The client-side router of the GEMS site: its static route table, exact-path
  lookup over that table, and the scroll decision taken after every
  navigation.
 */
module Router {
  import opened Wrappers

  /** One entry of the route table; `title` is the entry's `meta.title`. */
  datatype Route = Route(path: string, name: string, title: string)

  /**
    What the navigation hooks receive as `to`: the target path, the route's
    name and `meta.title` when the router matched one (missing otherwise),
    and the hash fragment, `""` when the URL has none.
   */
  datatype RouteLocation = RouteLocation(path: string, name: Option<string>, hash: string, metaTitle: Option<string>)

  /** A static absolute path: it begins with `/` and holds no `:` parameter marker. */
  predicate StaticPath(path: string) {
    |path| > 0 && path[0] == '/' && ColonFree(path)
  }

  /** No `:` anywhere, so no segment is a `:param` placeholder. */
  predicate ColonFree(path: string) {
    forall k :: 0 <= k < |path| ==> path[k] != ':'
  }

  /** The brand on its own, or the brand followed by ` - ` and a page label. */
  predicate BrandedTitle(title: string) {
    title == "GEMS" || (|title| > 7 && title[..7] == "GEMS - ")
  }

  /**
    An entry whose path has no `:` parameter segment. Every entry of the
    table is declared with this type, so Dafny checks each path where the
    entry is declared; the leading `/` is checked run by run below.
   */
  type PageRoute = r: Route | forall k :: 0 <= k < |r.path| ==> r.path[k] != ':' witness Route("/", "Home", "GEMS")

  // The entries, in declaration order; page components are left out. Long
  // literals are written as concatenations of shorter pieces, which spell
  // the same strings as the source.
  const HomeRoute: PageRoute :=
    Route("/", "Home", "GEMS")
  const CollectionRoute: PageRoute :=
    Route("/collection", "Collection", "GEMS - " + "COLLECTION")
  const CraftsmanshipRoute: PageRoute :=
    Route("/craftsmanship", "Craftsmanship", "GEMS - " + "CRAFTSMANSHIP")
  const TestimonialsRoute: PageRoute :=
    Route("/testimonials", "Testimonials", "GEMS - " + "TESTIMONIALS")
  const ContactRoute: PageRoute :=
    Route("/contact", "Contact", "GEMS - " + "CONTACT")
  const WelcomeRoute: PageRoute :=
    Route("/welcome", "Welcome", "GEMS - " + "Welcome")
  const SignInRoute: PageRoute :=
    Route("/sign-in", "SignIn", "GEMS - " + "SIGN IN")
  const BlogRoute: PageRoute :=
    Route("/blog", "Blog", "GEMS - " + "Blog")
  const DiamondEducationRoute: PageRoute :=
    Route("/diamond-education", "DiamondEducation", "GEMS - " + "Diamond Education")
  const InsuranceAppraisalsRoute: PageRoute :=
    Route("/insurance-appraisals", "InsuranceAppraisals", "GEMS - " + "Insurance & Appraisals")
  const CleaningCareRoute: PageRoute :=
    Route("/cleaning-care", "CleaningCare", "GEMS - " + "Cleaning & Care")
  const HowToChoosePerfectEngagementRingDiamondRoute: PageRoute :=
    Route("/blog/how-to-" + "choose-perfect-" + "engagement-" + "ring-diamond", "HowToChoosePerfect" + "EngagementRingDiamond", "GEMS - " + "How to Choose Perfect " + "Engagement Ring Diamond")
  const BestDiamondCutEngagementRings2025Route: PageRoute :=
    Route("/blog/best-diamond-cut-" + "engagement-rings-2025", "BestDiamondCutEngagementRings2025", "GEMS - " + "Best Diamond Cut " + "Engagement Rings 2025")
  const RoundCutVsOvalCutDiamondsRoute: PageRoute :=
    Route("/blog/difference-" + "between-round-cut-oval-" + "cut-diamonds", "RoundCutVsOvalCutDiamonds", "GEMS - " + "Round Cut vs Oval Cut " + "Diamonds")
  const HowMuchSpendEngagementRingDiamondRoute: PageRoute :=
    Route("/blog/how-much-spend-" + "engagement-ring-diamond", "HowMuchSpendEngagementRingDiamond", "GEMS - " + "How Much to Spend on " + "Engagement Ring Diamond")
  const GIACertifiedDiamondsVsNonCertifiedRoute: PageRoute :=
    Route("/blog/gia-certified-" + "diamonds-vs-non-" + "certified", "GIACertifiedDiamondsVsNonCertified", "GEMS - " + "GIA Certified Diamonds " + "vs Non-Certified")
  const MasterCraftsmanshipRoute: PageRoute :=
    Route("/master-craftsmanship", "MasterCraftsmanship", "GEMS - " + "Master Craftsmanship")
  const LifetimeGuaranteeRoute: PageRoute :=
    Route("/lifetime-guarantee", "LifetimeGuarantee", "GEMS - " + "Lifetime Guarantee")
  const SecureDeliveryRoute: PageRoute :=
    Route("/secure-delivery", "SecureDelivery", "GEMS - " + "Secure Delivery")
  const ConciergeRoute: PageRoute :=
    Route("/concierge", "Concierge", "GEMS - " + "24/7 Concierge")
  const ConflictFreeRoute: PageRoute :=
    Route("/conflict-free", "ConflictFree", "GEMS - " + "Conflict-Free Diamonds")

  // The table in three consecutive runs: the site pages, the blog posts, and
  // the service pages. Each run is checked on its own, then across runs.

  const SitePages: seq<Route> := [
    HomeRoute, CollectionRoute, CraftsmanshipRoute,
    TestimonialsRoute, ContactRoute, WelcomeRoute,
    SignInRoute, BlogRoute, DiamondEducationRoute,
    InsuranceAppraisalsRoute, CleaningCareRoute
  ]

  const BlogPosts: seq<Route> := [
    HowToChoosePerfectEngagementRingDiamondRoute, BestDiamondCutEngagementRings2025Route, RoundCutVsOvalCutDiamondsRoute,
    HowMuchSpendEngagementRingDiamondRoute, GIACertifiedDiamondsVsNonCertifiedRoute
  ]

  const ServicePages: seq<Route> := [
    MasterCraftsmanshipRoute, LifetimeGuaranteeRoute, SecureDeliveryRoute,
    ConciergeRoute, ConflictFreeRoute
  ]

  /** The route table, in declaration order. */
  const Routes: seq<Route> := SitePages + BlogPosts + ServicePages

  // ---------------------------------------------------------------------
  // Table invariants
  // ---------------------------------------------------------------------

  ghost predicate DistinctPaths(table: seq<Route>) {
    forall i, j :: 0 <= i < j < |table| ==> table[i].path != table[j].path
  }

  ghost predicate DistinctNames(table: seq<Route>) {
    forall i, j :: 0 <= i < j < |table| ==> table[i].name != table[j].name
  }

  /** No path of `a` is a path of `b`. */
  ghost predicate DisjointPaths(a: seq<Route>, b: seq<Route>) {
    forall i, j :: 0 <= i < |a| && 0 <= j < |b| ==> a[i].path != b[j].path
  }

  /** No name of `a` is a name of `b`. */
  ghost predicate DisjointNames(a: seq<Route>, b: seq<Route>) {
    forall i, j :: 0 <= i < |a| && 0 <= j < |b| ==> a[i].name != b[j].name
  }

  /** Two tables with unique paths and no path in common concatenate to one with unique paths. */
  lemma DistinctPathsConcat(a: seq<Route>, b: seq<Route>)
    requires DistinctPaths(a) && DistinctPaths(b) && DisjointPaths(a, b)
    ensures DistinctPaths(a + b)
  {
    forall i, j | 0 <= i < j < |a + b| ensures (a + b)[i].path != (a + b)[j].path {
      if j < |a| {
        assert (a + b)[i] == a[i] && (a + b)[j] == a[j];
      } else if i < |a| {
        assert (a + b)[i] == a[i] && (a + b)[j] == b[j - |a|];
      } else {
        assert (a + b)[i] == b[i - |a|] && (a + b)[j] == b[j - |a|];
      }
    }
  }

  /** The same for names. */
  lemma DistinctNamesConcat(a: seq<Route>, b: seq<Route>)
    requires DistinctNames(a) && DistinctNames(b) && DisjointNames(a, b)
    ensures DistinctNames(a + b)
  {
    forall i, j | 0 <= i < j < |a + b| ensures (a + b)[i].name != (a + b)[j].name {
      if j < |a| {
        assert (a + b)[i] == a[i] && (a + b)[j] == a[j];
      } else if i < |a| {
        assert (a + b)[i] == a[i] && (a + b)[j] == b[j - |a|];
      } else {
        assert (a + b)[i] == b[i - |a|] && (a + b)[j] == b[j - |a|];
      }
    }
  }

  /** A table disjoint from two others is disjoint from their concatenation. */
  lemma DisjointConcat(a: seq<Route>, b: seq<Route>, c: seq<Route>)
    requires DisjointPaths(a, c) && DisjointPaths(b, c) && DisjointNames(a, c) && DisjointNames(b, c)
    ensures DisjointPaths(a + b, c) && DisjointNames(a + b, c)
  {
    forall i | 0 <= i < |a + b| ensures (a + b)[i] == if i < |a| then a[i] else b[i - |a|] {
    }
  }

  /** Proof aid: the longest path and the longest name outside the blog posts. */
  lemma ShortKeysOutsideBlog()
    ensures forall i :: 0 <= i < |SitePages| ==> |SitePages[i].path| <= 21 && |SitePages[i].name| <= 19
    ensures forall i :: 0 <= i < |ServicePages| ==> |ServicePages[i].path| <= 21 && |ServicePages[i].name| <= 19
  {
  }

  /** Proof aid: every blog post's path and name is longer than any outside the blog posts. */
  lemma LongKeysInBlog()
    ensures forall i :: 0 <= i < |BlogPosts| ==> |BlogPosts[i].path| > 21 && |BlogPosts[i].name| > 19
  {
  }

  lemma SitePagePathsDistinct()
    ensures DistinctPaths(SitePages)
  {
  }

  lemma SitePageNamesDistinct()
    ensures DistinctNames(SitePages)
  {
  }

  lemma BlogPostsDistinct()
    ensures DistinctPaths(BlogPosts) && DistinctNames(BlogPosts)
  {
    // the two `/blog/how-...` paths agree on their first six characters
    assert BlogPosts[1].path[6] != BlogPosts[3].path[6];
  }

  lemma ServicePagesDistinct()
    ensures DistinctPaths(ServicePages) && DistinctNames(ServicePages)
  {
  }

  lemma SiteAndServicePathsApart()
    ensures DisjointPaths(SitePages, ServicePages)
  {
  }

  lemma SiteAndServiceNamesApart()
    ensures DisjointNames(SitePages, ServicePages)
  {
  }

  /** Every path and every name of the table occurs in it once. */
  lemma RouteKeysDistinct()
    ensures DistinctPaths(Routes) && DistinctNames(Routes)
  {
    SitePagePathsDistinct();
    SitePageNamesDistinct();
    BlogPostsDistinct();
    ServicePagesDistinct();
    ShortKeysOutsideBlog();
    LongKeysInBlog();
    SiteAndServicePathsApart();
    SiteAndServiceNamesApart();
    DistinctPathsConcat(SitePages, BlogPosts);
    DistinctNamesConcat(SitePages, BlogPosts);
    DisjointConcat(SitePages, BlogPosts, ServicePages);
    DistinctPathsConcat(SitePages + BlogPosts, ServicePages);
    DistinctNamesConcat(SitePages + BlogPosts, ServicePages);
  }

  /** Every route's path is unique in the table. */
  lemma RoutePathsDistinct()
    ensures DistinctPaths(Routes)
  {
    RouteKeysDistinct();
  }

  /** Every route's name is unique in the table. */
  lemma RouteNamesDistinct()
    ensures DistinctNames(Routes)
  {
    RouteKeysDistinct();
  }

  ghost predicate TitlesBranded(table: seq<Route>) {
    forall i :: 0 <= i < |table| ==> BrandedTitle(table[i].title)
  }

  ghost predicate PathsStatic(table: seq<Route>) {
    forall i :: 0 <= i < |table| ==> StaticPath(table[i].path)
  }

  /** Both per-entry facts carry over to a concatenation. */
  lemma EntryFactsConcat(a: seq<Route>, b: seq<Route>)
    requires TitlesBranded(a) && TitlesBranded(b) && PathsStatic(a) && PathsStatic(b)
    ensures TitlesBranded(a + b) && PathsStatic(a + b)
  {
    forall i | 0 <= i < |a + b| ensures (a + b)[i] == if i < |a| then a[i] else b[i - |a|] {
    }
  }

  lemma SitePagesWellFormed()
    ensures TitlesBranded(SitePages) && PathsStatic(SitePages)
  {
  }

  lemma BlogPostsWellFormed()
    ensures TitlesBranded(BlogPosts) && PathsStatic(BlogPosts)
  {
  }

  lemma ServicePagesWellFormed()
    ensures TitlesBranded(ServicePages) && PathsStatic(ServicePages)
  {
  }

  /** Every route title is `GEMS` or starts with `GEMS - `, so none is empty. */
  lemma RouteTitlesBranded()
    ensures forall i :: 0 <= i < |Routes| ==> BrandedTitle(Routes[i].title) && Routes[i].title != ""
  {
    RouteEntriesWellFormed();
  }

  /** Every path starts with `/` and none has a `:` parameter segment. */
  lemma RoutePathsStatic()
    ensures forall i :: 0 <= i < |Routes| ==> StaticPath(Routes[i].path)
  {
    RouteEntriesWellFormed();
  }

  lemma RouteEntriesWellFormed()
    ensures TitlesBranded(Routes) && PathsStatic(Routes)
  {
    SitePagesWellFormed();
    BlogPostsWellFormed();
    ServicePagesWellFormed();
    EntryFactsConcat(SitePages, BlogPosts);
    EntryFactsConcat(SitePages + BlogPosts, ServicePages);
  }

  // ---------------------------------------------------------------------
  // Exact-path lookup
  // ---------------------------------------------------------------------

  /**
    The first entry of `table` whose path is exactly `path`, or `None`
    when no entry has that path (the not-found case).
   */
  function Resolve(table: seq<Route>, path: string): (found: Option<Route>)
    ensures found.None? <==> forall i :: 0 <= i < |table| ==> table[i].path != path
    ensures found.Some? ==>
      exists i :: 0 <= i < |table| && table[i] == found.value && found.value.path == path
        && forall j :: 0 <= j < i ==> table[j].path != path
    decreases |table|
  {
    if table == [] then
      None
    else if table[0].path == path then
      Some(table[0])
    else
      var found := Resolve(table[1..], path);
      assert forall i :: 0 < i < |table| ==> table[i] == table[1..][i - 1];
      if found.Some? then
        var i :| 0 <= i < |table[1..]| && table[1..][i] == found.value && found.value.path == path
          && forall j :: 0 <= j < i ==> table[1..][j].path != path;
        assert table[i + 1] == found.value;
        found
      else
        found
  }

  /**
    With unique paths the lookup is exact in both directions: it finds `r`
    precisely when `r` is the table's entry for `path`.
   */
  lemma ResolveUnique(table: seq<Route>, path: string, r: Route)
    requires DistinctPaths(table)
    ensures Resolve(table, path) == Some(r) <==> r in table && r.path == path
  {
    var found := Resolve(table, path);
    if r in table && r.path == path {
      var k :| 0 <= k < |table| && table[k] == r;
      assert found.Some?;
      var i :| 0 <= i < |table| && table[i] == found.value && found.value.path == path
        && forall j :: 0 <= j < i ==> table[j].path != path;
      // i cannot lie before k (the paths differ) nor after it (Resolve takes the first match)
      assert i == k;
    }
  }

  /** At most one entry of the route table answers any path. */
  lemma AtMostOneRoutePerPath(path: string)
    ensures forall i, j :: 0 <= i < |Routes| && 0 <= j < |Routes| && Routes[i].path == path && Routes[j].path == path ==> i == j
  {
    RoutePathsDistinct();
  }

  /**
    The location the hooks receive for a navigation to `path` and `hash`
    when matching is exact: name and title of the matched entry, or none
    of either when no entry matches.
   */
  function Locate(path: string, hash: string): (to: RouteLocation)
    ensures to.path == path && to.hash == hash
    ensures to.name.Some? <==> to.metaTitle.Some?
    ensures to.name.Some? ==> Route(path, to.name.value, to.metaTitle.value) in Routes
    ensures to.name.None? ==> forall r :: r in Routes ==> r.path != path
  {
    match Resolve(Routes, path)
    case Some(r) => RouteLocation(path, Some(r.name), hash, Some(r.title))
    case None => RouteLocation(path, None, hash, None)
  }

  /**
    Every table entry is found by its own path: the hooks then see its
    name and its `meta.title`, whatever the hash.
   */
  lemma LocateTableRoute(i: nat, hash: string)
    requires i < |Routes|
    ensures Locate(Routes[i].path, hash) == RouteLocation(Routes[i].path, Some(Routes[i].name), hash, Some(Routes[i].title))
  {
    RoutePathsDistinct();
    ResolveUnique(Routes, Routes[i].path, Routes[i]);
  }

  // ---------------------------------------------------------------------
  // Scroll behaviour
  // ---------------------------------------------------------------------

  /** A scroll offset as the router records it for a history entry. */
  datatype ScrollPosition = ScrollPosition(left: int, top: int)

  datatype ScrollKind = Auto | Smooth

  /** The three answers `scrollBehavior` can give. */
  datatype ScrollTarget =
    | Restore(position: ScrollPosition)               // the saved position itself
    | ToElement(el: string, behavior: ScrollKind)      // `{ el, behavior }`
    | ToOffset(top: int)                               // `{ top }`

  /**
    The scroll target after a navigation to `to` from `from`, given the
    position the router saved for the target history entry, if any.
   */
  function ScrollBehavior(to: RouteLocation, from: RouteLocation, savedPosition: Option<ScrollPosition>): (target: ScrollTarget)
    ensures target.Restore? <==> savedPosition.Some?
    ensures target.ToElement? <==> savedPosition.None? && to.hash != ""
    ensures target.ToOffset? <==> savedPosition.None? && to.hash == ""
  {
    if savedPosition.Some? then
      Restore(savedPosition.value)
    else if to.hash != "" then
      ToElement(to.hash, Smooth)
    else
      ToOffset(0)
  }

  /** A saved position wins over everything, the hash included, and is returned unchanged. */
  lemma SavedPositionRestored(to: RouteLocation, from: RouteLocation, pos: ScrollPosition)
    ensures ScrollBehavior(to, from, Some(pos)) == Restore(pos)
  {
  }

  /** Without a saved position a hash is scrolled to smoothly, the hash passed on as it is, `#` included. */
  lemma HashScrollsSmoothly(to: RouteLocation, from: RouteLocation)
    requires to.hash != ""
    ensures ScrollBehavior(to, from, None) == ToElement(to.hash, Smooth)
  {
  }

  /** With neither a saved position nor a hash, the page goes back to the top. */
  lemma NoHashGoesToTop(to: RouteLocation, from: RouteLocation)
    requires to.hash == ""
    ensures ScrollBehavior(to, from, None) == ToOffset(0)
  {
  }

  /** The route navigated away from plays no part in the decision. */
  lemma ScrollIgnoresFrom(to: RouteLocation, from1: RouteLocation, from2: RouteLocation, saved: Option<ScrollPosition>)
    ensures ScrollBehavior(to, from1, saved) == ScrollBehavior(to, from2, saved)
  {
  }
}
