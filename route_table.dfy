/** The route table RoutesGenerator derives from dvs_pages: one route per
    page row, `explode('|', …)` of the middleware column, Laravel's
    `groupBy('site_id')`, and what `loadRoutes` hands to the router for
    each group. */
module RouteTable {
  import opened Common
  import opened SlugNormalisation
  import opened PageStore

  /** The columns findDvsPageRoutes selects from dvs_pages. */
  datatype PageRow = PageRow(httpVerb: string, slug: string, routeName: string, middleware: string, siteId: int)

  function RowOf(p: PageRecord): PageRow {
    PageRow(p.httpVerb, p.slug, p.routeName, p.middleware, p.siteId)
  }

  /** `select('http_verb', 'slug', 'route_name', 'middleware', 'site_id')->get()`. */
  function RowsOf(pages: seq<PageRecord>): (rows: seq<PageRow>)
    ensures |rows| == |pages|
    ensures forall i :: 0 <= i < |pages| ==> rows[i] == RowOf(pages[i])
  {
    seq(|pages|, i requires 0 <= i < |pages| => RowOf(pages[i]))
  }

  /** The one controller action every page route is dispatched to. */
  const Handler: string := "Devise\\Http\\Controllers\\PagesController@show"

  /** A page row after findDvsPageRoutes rewrote `slug` and set `uses`. */
  datatype PageRoute = PageRoute(httpVerb: string, slug: string, routeName: string, middleware: string, siteId: int, uses: string)

  function Materialise(row: PageRow): PageRoute {
    PageRoute(row.httpVerb, NormaliseSlug(row.slug), row.routeName, row.middleware, row.siteId, Handler)
  }

  function MaterialiseAll(rows: seq<PageRow>): (routes: seq<PageRoute>)
    ensures |routes| == |rows|
    ensures forall i :: 0 <= i < |rows| ==> routes[i] == Materialise(rows[i])
  {
    seq(|rows|, i requires 0 <= i < |rows| => Materialise(rows[i]))
  }

  /** Each row becomes exactly one route: the same verb, name, middleware
      and site, the slug normalised (so normalising again changes nothing),
      and the fixed handler. */
  lemma MaterialiseAllSpec(rows: seq<PageRow>)
    ensures |MaterialiseAll(rows)| == |rows|
    ensures forall i :: 0 <= i < |rows| ==>
      var r := MaterialiseAll(rows)[i];
      r.uses == Handler && r.httpVerb == rows[i].httpVerb && r.routeName == rows[i].routeName &&
      r.middleware == rows[i].middleware && r.siteId == rows[i].siteId &&
      |r.slug| == |rows[i].slug| && NormaliseSlug(r.slug) == r.slug
  {
    forall i | 0 <= i < |rows|
      ensures NormaliseSlug(MaterialiseAll(rows)[i].slug) == MaterialiseAll(rows)[i].slug
    {
      NormaliseSlugIdempotent(rows[i].slug);
    }
  }

  // ---------------------------------------------------------------------
  // explode('|', $route->middleware)

  function IndexOf(s: string, d: char): (i: nat)
    requires d in s
    ensures i < |s| && s[i] == d && d !in s[..i]
  {
    if s[0] == d then 0 else 1 + IndexOf(s[1..], d)
  }

  /** `explode($d, $s)`: the pieces between the delimiters, in order. */
  function Split(s: string, d: char): (parts: seq<string>)
    ensures |parts| >= 1
    ensures forall p :: p in parts ==> d !in p
    decreases |s|
  {
    if d !in s then [s]
    else
      var i := IndexOf(s, d);
      [s[..i]] + Split(s[i + 1..], d)
  }

  /** `implode($d, $parts)`. */
  function Join(parts: seq<string>, d: char): string
    requires |parts| >= 1
  {
    if |parts| == 1 then parts[0] else parts[0] + [d] + Join(parts[1..], d)
  }

  /** Splitting loses nothing: joining the pieces gives the string back. */
  lemma {:induction false} JoinSplit(s: string, d: char)
    ensures Join(Split(s, d), d) == s
    decreases |s|
  {
    if d in s {
      JoinSplit(s[IndexOf(s, d) + 1..], d);
      JoinSplitStep(s, d);
    }
  }

  /** One piece of JoinSplit: the text before the first delimiter, the
      delimiter, and the join of the rest's pieces. */
  lemma JoinSplitStep(s: string, d: char)
    requires d in s
    requires Join(Split(s[IndexOf(s, d) + 1..], d), d) == s[IndexOf(s, d) + 1..]
    ensures Join(Split(s, d), d) == s
  {
    var i := IndexOf(s, d);
    var rest := Split(s[i + 1..], d);
    assert Split(s, d) == [s[..i]] + rest;
    JoinCons(s[..i], rest, d);
    Around(s, i);
  }

  lemma Around<T>(s: seq<T>, i: nat)
    requires i < |s|
    ensures s == s[..i] + [s[i]] + s[i + 1..]
  {
  }

  lemma JoinCons(first: string, rest: seq<string>, d: char)
    requires |rest| >= 1
    ensures Join([first] + rest, d) == first + [d] + Join(rest, d)
  {
    assert ([first] + rest)[1..] == rest;
  }

  lemma {:induction false} IndexOfFirst(a: string, d: char, b: string)
    requires d !in a
    ensures IndexOf(a + [d] + b, d) == |a|
  {
    if a != [] {
      assert (a + [d] + b)[1..] == a[1..] + [d] + b;
      IndexOfFirst(a[1..], d, b);
    }
  }

  /** Pieces without the delimiter are recovered from their join. */
  lemma {:induction false} SplitJoin(parts: seq<string>, d: char)
    requires |parts| >= 1
    requires forall p :: p in parts ==> d !in p
    ensures Split(Join(parts, d), d) == parts
  {
    if |parts| > 1 {
      assert forall p :: p in parts[1..] ==> p in parts;
      SplitJoin(parts[1..], d);
      SplitCons(parts[0], d, Join(parts[1..], d));
      assert [parts[0]] + parts[1..] == parts;
    }
  }

  /** The first piece ends at the first delimiter. */
  lemma SplitCons(first: string, d: char, rest: string)
    requires d !in first
    ensures Split(first + [d] + rest, d) == [first] + Split(rest, d)
  {
    var s := first + [d] + rest;
    assert s[|first|] == d;
    assert s[..|first|] == first;
    IndexOfFirst(first, d, rest);
    assert s[|first| + 1..] == rest;
  }

  /** The `middleware` option of a registration: present only when the
      column is truthy, and then the `|`-separated names in order. */
  function MiddlewareOption(m: string): (r: Option<seq<string>>)
    ensures r.None? <==> !Truthy(m)
    ensures r.Some? ==> |r.value| >= 1 && Join(r.value, '|') == m && forall p :: p in r.value ==> '|' !in p
  {
    if Truthy(m) then
      JoinSplit(m, '|');
      Some(Split(m, '|'))
    else None
  }

  /** `"auth|throttle"` gives both names in order; `""` gives no option. */
  lemma MiddlewareExamples()
    ensures MiddlewareOption("auth|throttle") == Some(["auth", "throttle"])
    ensures MiddlewareOption("") == None
  {
    SplitJoin(["auth", "throttle"], '|');
    assert Join(["auth", "throttle"], '|') == "auth|throttle";
  }

  // ---------------------------------------------------------------------
  // $routes->groupBy('site_id')

  /** One bucket of `groupBy('site_id')`. */
  datatype SiteGroup = SiteGroup(siteId: int, routes: seq<PageRoute>)

  /** The routes of one site, in source order. */
  function OfSite(rs: seq<PageRoute>, site: int): (r: seq<PageRoute>)
    ensures forall x :: x in r ==> x in rs && x.siteId == site
  {
    if rs == [] then []
    else OfSite(rs[..|rs| - 1], site) + (if rs[|rs| - 1].siteId == site then [rs[|rs| - 1]] else [])
  }

  /** The position of a site's bucket, if it has one. */
  function FindGroup(gs: seq<SiteGroup>, site: int): (r: Option<nat>)
    ensures r.Some? ==> r.value < |gs| && gs[r.value].siteId == site
    ensures r.None? ==> forall i :: 0 <= i < |gs| ==> gs[i].siteId != site
  {
    if gs == [] then None
    else if gs[0].siteId == site then Some(0)
    else match FindGroup(gs[1..], site)
      case None => None
      case Some(i) => Some(i + 1)
  }

  /** Adding one item to the buckets: appended to its site's bucket, or a
      new bucket opened at the end. */
  function AddToGroups(gs: seq<SiteGroup>, r: PageRoute): seq<SiteGroup> {
    match FindGroup(gs, r.siteId)
    case Some(i) => gs[i := gs[i].(routes := gs[i].routes + [r])]
    case None => gs + [SiteGroup(r.siteId, [r])]
  }

  /** Laravel's `groupBy('site_id')`: buckets in order of first appearance. */
  function GroupBySite(rs: seq<PageRoute>): seq<SiteGroup> {
    if rs == [] then [] else AddToGroups(GroupBySite(rs[..|rs| - 1]), rs[|rs| - 1])
  }

  predicate DistinctSites(gs: seq<SiteGroup>) {
    forall i, j :: 0 <= i < j < |gs| ==> gs[i].siteId != gs[j].siteId
  }

  predicate HasSite(gs: seq<SiteGroup>, site: int) {
    exists i :: 0 <= i < |gs| && gs[i].siteId == site
  }

  function Flatten(gs: seq<SiteGroup>): seq<PageRoute> {
    if gs == [] then [] else gs[0].routes + Flatten(gs[1..])
  }

  lemma {:induction false} FlattenAppend(a: seq<SiteGroup>, b: seq<SiteGroup>)
    ensures Flatten(a + b) == Flatten(a) + Flatten(b)
  {
    if a == [] {
      assert a + b == b;
    } else {
      assert (a + b)[0] == a[0];
      assert (a + b)[1..] == a[1..] + b;
      FlattenAppend(a[1..], b);
    }
  }

  /** Appending to one bucket adds that item to the flattened routes. */
  lemma FlattenUpdate(gs: seq<SiteGroup>, i: nat, r: PageRoute)
    requires i < |gs|
    ensures multiset(Flatten(gs[i := gs[i].(routes := gs[i].routes + [r])])) == multiset(Flatten(gs)) + multiset{r}
  {
    var g' := gs[i].(routes := gs[i].routes + [r]);
    var u := gs[i := g'];
    assert gs == gs[..i] + [gs[i]] + gs[i + 1..];
    assert u == gs[..i] + [g'] + gs[i + 1..];
    FlattenAppend(gs[..i] + [gs[i]], gs[i + 1..]);
    FlattenAppend(gs[..i], [gs[i]]);
    FlattenAppend(gs[..i] + [g'], gs[i + 1..]);
    FlattenAppend(gs[..i], [g']);
    assert Flatten([gs[i]]) == gs[i].routes;
    assert Flatten([g']) == g'.routes;
  }

  lemma AddToGroupsFlatten(gs: seq<SiteGroup>, r: PageRoute)
    ensures multiset(Flatten(AddToGroups(gs, r))) == multiset(Flatten(gs)) + multiset{r}
  {
    match FindGroup(gs, r.siteId)
    case Some(i) => FlattenUpdate(gs, i, r);
    case None =>
      FlattenAppend(gs, [SiteGroup(r.siteId, [r])]);
      assert Flatten([SiteGroup(r.siteId, [r])]) == [r];
  }

  /** Adding a route keeps the bucket sites distinct, keeps the existing
      buckets in place (only the route's own bucket grows, at its end) and
      opens a bucket at the end exactly when the site had none. */
  lemma AddToGroupsSpec(gs: seq<SiteGroup>, r: PageRoute)
    requires DistinctSites(gs)
    ensures var res := AddToGroups(gs, r);
      DistinctSites(res) &&
      |gs| <= |res| &&
      (|res| == |gs| <==> HasSite(gs, r.siteId)) &&
      (forall i :: 0 <= i < |gs| ==> res[i].siteId == gs[i].siteId) &&
      (forall i :: 0 <= i < |gs| ==>
         res[i].routes == gs[i].routes + (if gs[i].siteId == r.siteId then [r] else [])) &&
      (|res| > |gs| ==> res == gs + [SiteGroup(r.siteId, [r])]) &&
      multiset(Flatten(res)) == multiset(Flatten(gs)) + multiset{r}
  {
    AddToGroupsFlatten(gs, r);
    match FindGroup(gs, r.siteId)
    case Some(i) => AddToFoundGroup(gs, r, i);
    case None => AddNewGroup(gs, r);
  }

  /** AddToGroupsSpec when the route's site has a bucket at position i. */
  lemma AddToFoundGroup(gs: seq<SiteGroup>, r: PageRoute, i: nat)
    requires DistinctSites(gs) && FindGroup(gs, r.siteId) == Some(i)
    ensures var res := AddToGroups(gs, r);
      DistinctSites(res) && |res| == |gs| && HasSite(gs, r.siteId) &&
      (forall j :: 0 <= j < |gs| ==> res[j].siteId == gs[j].siteId) &&
      (forall j :: 0 <= j < |gs| ==>
         res[j].routes == gs[j].routes + (if gs[j].siteId == r.siteId then [r] else []))
  {
    var res := AddToGroups(gs, r);
    assert res == gs[i := gs[i].(routes := gs[i].routes + [r])];
  }

  /** AddToGroupsSpec when the route's site has no bucket yet. */
  lemma AddNewGroup(gs: seq<SiteGroup>, r: PageRoute)
    requires DistinctSites(gs) && FindGroup(gs, r.siteId).None?
    ensures var res := AddToGroups(gs, r);
      DistinctSites(res) && |res| == |gs| + 1 && !HasSite(gs, r.siteId) &&
      (forall j :: 0 <= j < |gs| ==> res[j].siteId == gs[j].siteId) &&
      (forall j :: 0 <= j < |gs| ==>
         res[j].routes == gs[j].routes + (if gs[j].siteId == r.siteId then [r] else [])) &&
      res == gs + [SiteGroup(r.siteId, [r])]
  {
  }

  lemma OfSiteEmpty(rs: seq<PageRoute>, site: int)
    requires forall x :: x in rs ==> x.siteId != site
    ensures OfSite(rs, site) == []
  {
    if rs != [] {
      OfSiteEmpty(rs[..|rs| - 1], site);
    }
  }

  lemma OfSiteSnoc(init: seq<PageRoute>, last: PageRoute, site: int)
    ensures OfSite(init + [last], site) == OfSite(init, site) + (if last.siteId == site then [last] else [])
  {
    assert (init + [last])[..|init|] == init;
  }

  lemma GroupBySiteSnoc(init: seq<PageRoute>, last: PageRoute)
    ensures GroupBySite(init + [last]) == AddToGroups(GroupBySite(init), last)
  {
    assert (init + [last])[..|init|] == init;
  }

  /** One step of the grouping: a bucket after adding `last` holds the
      routes of its site among `init + [last]`. */
  lemma GroupStep(init: seq<PageRoute>, last: PageRoute, g0: seq<SiteGroup>, i: nat)
    requires DistinctSites(g0)
    requires forall j :: 0 <= j < |g0| ==> g0[j].routes == OfSite(init, g0[j].siteId) && g0[j].routes != []
    requires forall x :: x in init ==> HasSite(g0, x.siteId)
    requires i < |AddToGroups(g0, last)|
    ensures var g := AddToGroups(g0, last);
      g[i].routes == OfSite(init + [last], g[i].siteId) && g[i].routes != []
  {
    var g := AddToGroups(g0, last);
    AddToGroupsSpec(g0, last);
    OfSiteSnoc(init, last, g[i].siteId);
    if i >= |g0| {
      assert g[i] == SiteGroup(last.siteId, [last]);
      forall x | x in init
        ensures x.siteId != last.siteId
      {
        var j :| 0 <= j < |g0| && g0[j].siteId == x.siteId;
      }
      OfSiteEmpty(init, last.siteId);
    }
  }

  /** Every route of the longer prefix has a bucket. */
  lemma CoverStep(init: seq<PageRoute>, last: PageRoute, g0: seq<SiteGroup>, x: PageRoute)
    requires DistinctSites(g0)
    requires forall x :: x in init ==> HasSite(g0, x.siteId)
    requires x in init + [last]
    ensures HasSite(AddToGroups(g0, last), x.siteId)
  {
    var g := AddToGroups(g0, last);
    AddToGroupsSpec(g0, last);
    if x in init {
      var i :| 0 <= i < |g0| && g0[i].siteId == x.siteId;
      assert g[i].siteId == x.siteId;
    } else if |g| > |g0| {
      assert g[|g0|].siteId == x.siteId;
    } else {
      var i :| 0 <= i < |g0| && g0[i].siteId == x.siteId;
      assert g[i].siteId == x.siteId;
    }
  }

  /** `groupBy('site_id')` partitions the routes: the sites of the buckets
      are distinct, every route's site has a bucket, each bucket holds
      exactly the routes of its site in their original order (so grouping
      is stable), and no route is lost or duplicated. */
  lemma {:induction false} GroupBySiteSpec(rs: seq<PageRoute>)
    ensures var g := GroupBySite(rs);
      DistinctSites(g) &&
      (forall i :: 0 <= i < |g| ==> g[i].routes == OfSite(rs, g[i].siteId) && g[i].routes != []) &&
      (forall x :: x in rs ==> HasSite(g, x.siteId)) &&
      multiset(Flatten(g)) == multiset(rs)
  {
    if rs != [] {
      var init, last := rs[..|rs| - 1], rs[|rs| - 1];
      assert rs == init + [last];
      GroupBySiteSpec(init);
      var g0 := GroupBySite(init);
      var g := GroupBySite(rs);
      AddToGroupsSpec(g0, last);
      GroupBySiteSnoc(init, last);
      forall i | 0 <= i < |g|
        ensures g[i].routes == OfSite(rs, g[i].siteId) && g[i].routes != []
      {
        GroupStep(init, last, g0, i);
      }
      forall x | x in rs
        ensures HasSite(g, x.siteId)
      {
        CoverStep(init, last, g0, x);
      }
    }
  }

  /** Sites 1, 0, 1 give two buckets, site 1 first, and the site 1 routes
      stay in the order the table returned them. */
  lemma GroupingStableExample(a: PageRoute, b: PageRoute, c: PageRoute)
    requires a.siteId == 1 && b.siteId == 0 && c.siteId == 1
    ensures GroupBySite([a, b, c]) == [SiteGroup(1, [a, c]), SiteGroup(0, [b])]
  {
    var g1 := [SiteGroup(1, [a])];
    var g2 := [SiteGroup(1, [a]), SiteGroup(0, [b])];
    assert GroupBySite([a]) == g1 by {
      GroupBySiteSnoc([], a);
      assert [] + [a] == [a];
    }
    assert GroupBySite([a, b]) == g2 by {
      GroupBySiteSnoc([a], b);
      assert [a] + [b] == [a, b];
      assert FindGroup(g1, 0) == None;
    }
    GroupBySiteSnoc([a, b], c);
    assert [a, b] + [c] == [a, b, c];
    assert FindGroup(g2, 1) == Some(0);
    assert [a] + [c] == [a, c];
  }

  // ---------------------------------------------------------------------
  // Registration on the router

  /** One call `$this->Route->$verb($slug, ['as' => …, 'uses' => …,
      'middleware' => …])`, with the domain of the enclosing group. */
  datatype Registration = Registration(
    domain: Option<string>,
    verb: string,
    path: string,
    name: string,
    uses: string,
    middleware: Option<seq<string>>)

  function RegistrationOf(r: PageRoute, domain: Option<string>): Registration {
    Registration(domain, r.httpVerb, r.slug, r.routeName, r.uses, MiddlewareOption(r.middleware))
  }

  function DomainEnvKey(siteId: nat): string {
    "SITE_" + NatToString(siteId) + "_DOMAIN"
  }

  /** The domain of a site's group: `env('SITE_<id>_DOMAIN')` when that is
      truthy, otherwise the stored `dvs_sites.domain`; None when neither
      exists (the lookup `$domains[$siteId]` of an unknown key throws). */
  function SiteDomain(siteId: nat, sites: map<int, string>, env: map<string, string>): Option<string> {
    var key := DomainEnvKey(siteId);
    if key in env && Truthy(env[key]) then Some(env[key])
    else if siteId in sites then Some(sites[siteId])
    else None
  }

  /** `SITE_3_DOMAIN=staging.example.com` wins over the stored domain of
      site 3; without it, or with it empty, the stored domain is used. */
  lemma SiteDomainExample(sites: map<int, string>, env: map<string, string>)
    requires sites == map[3 := "example.com"]
    ensures SiteDomain(3, sites, env["SITE_3_DOMAIN" := "staging.example.com"]) == Some("staging.example.com")
    ensures SiteDomain(3, sites, env["SITE_3_DOMAIN" := ""]) == Some("example.com")
    ensures SiteDomain(3, sites, env - {"SITE_3_DOMAIN"}) == Some("example.com")
    ensures SiteDomain(4, sites, env - {"SITE_4_DOMAIN"}) == None
  {
    assert NatToString(3) == "3";
    assert NatToString(4) == "4";
    assert DomainEnvKey(3) == "SITE_3_DOMAIN";
    assert DomainEnvKey(4) == "SITE_4_DOMAIN";
  }

  /** The domain a route of this site is registered under. */
  function DomainFor(siteId: int, sites: map<int, string>, env: map<string, string>): Option<string> {
    if siteId > 0 then SiteDomain(siteId, sites, env) else None
  }

  predicate Resolvable(siteId: int, sites: map<int, string>, env: map<string, string>) {
    siteId > 0 ==> SiteDomain(siteId, sites, env).Some?
  }

  function RegisterAll(rs: seq<PageRoute>, domain: Option<string>): (regs: seq<Registration>)
    ensures |regs| == |rs|
    ensures forall k :: 0 <= k < |rs| ==> regs[k] == RegistrationOf(rs[k], domain)
  {
    seq(|rs|, k requires 0 <= k < |rs| => RegistrationOf(rs[k], domain))
  }

  /** What the router receives, and the exception that stops the loop. */
  datatype Installed = Installed(registrations: seq<Registration>, error: Option<string>)

  function UndefinedSite(siteId: int): string {
    "Undefined array key " + IntToString(siteId)
  }

  /** The `foreach ($routesBySite as $siteId => $routes)` loop of loadRoutes. */
  function InstallGroups(gs: seq<SiteGroup>, sites: map<int, string>, env: map<string, string>): Installed
    decreases |gs|
  {
    if gs == [] then Installed([], None)
    else
      var g := gs[0];
      if g.siteId > 0 && SiteDomain(g.siteId, sites, env).None? then
        Installed([], Some(UndefinedSite(g.siteId)))
      else
        var rest := InstallGroups(gs[1..], sites, env);
        Installed(RegisterAll(g.routes, DomainFor(g.siteId, sites, env)) + rest.registrations, rest.error)
  }

  /** Every route of a group belongs to the group's site. */
  predicate Homogeneous(gs: seq<SiteGroup>) {
    forall i, x :: 0 <= i < |gs| && x in gs[i].routes ==> x.siteId == gs[i].siteId
  }

  /** Each route registered with the domain of its own site. */
  function RegisterEach(rs: seq<PageRoute>, sites: map<int, string>, env: map<string, string>): (regs: seq<Registration>)
    ensures |regs| == |rs|
    ensures forall k :: 0 <= k < |rs| ==> regs[k] == RegistrationOf(rs[k], DomainFor(rs[k].siteId, sites, env))
  {
    seq(|rs|, k requires 0 <= k < |rs| => RegistrationOf(rs[k], DomainFor(rs[k].siteId, sites, env)))
  }

  /** The loop over site groups either registers every route of every
      group, each with its own site's domain (none for site 0), or stops at
      the first site > 0 whose domain cannot be resolved, having registered
      exactly the groups before it. */
  lemma {:induction false} InstallGroupsSpec(gs: seq<SiteGroup>, sites: map<int, string>, env: map<string, string>)
    requires Homogeneous(gs)
    ensures var inst := InstallGroups(gs, sites, env);
      (inst.error.None? <==> forall i :: 0 <= i < |gs| ==> Resolvable(gs[i].siteId, sites, env)) &&
      (inst.error.None? ==> inst.registrations == RegisterEach(Flatten(gs), sites, env)) &&
      (inst.error.Some? ==> exists f :: (0 <= f < |gs| && !Resolvable(gs[f].siteId, sites, env) &&
         inst.registrations == RegisterEach(Flatten(gs[..f]), sites, env)))
    decreases |gs|
  {
    if gs != [] {
      if !Resolvable(gs[0].siteId, sites, env) {
        assert gs[..0] == [];
      } else {
        HomogeneousTail(gs);
        InstallGroupsSpec(gs[1..], sites, env);
        InstallGroupsCons(gs, sites, env);
        if InstallGroups(gs[1..], sites, env).error.None? {
          forall i | 0 <= i < |gs|
            ensures Resolvable(gs[i].siteId, sites, env)
          {
            if i > 0 { assert gs[i] == gs[1..][i - 1]; }
          }
        } else {
          InstallGroupsFailLater(gs, sites, env);
        }
      }
    }
  }

  lemma HomogeneousTail(gs: seq<SiteGroup>)
    requires gs != [] && Homogeneous(gs)
    ensures Homogeneous(gs[1..])
  {
    forall i, x | 0 <= i < |gs[1..]| && x in gs[1..][i].routes
      ensures x.siteId == gs[1..][i].siteId
    {
      assert gs[1..][i] == gs[i + 1];
    }
  }

  /** A group whose site resolves registers its routes in front of the rest. */
  lemma InstallGroupsCons(gs: seq<SiteGroup>, sites: map<int, string>, env: map<string, string>)
    requires gs != [] && Homogeneous(gs) && Resolvable(gs[0].siteId, sites, env)
    ensures InstallGroups(gs, sites, env).error == InstallGroups(gs[1..], sites, env).error
    ensures InstallGroups(gs, sites, env).registrations ==
      RegisterEach(gs[0].routes, sites, env) + InstallGroups(gs[1..], sites, env).registrations
    ensures RegisterEach(Flatten(gs), sites, env) ==
      RegisterEach(gs[0].routes, sites, env) + RegisterEach(Flatten(gs[1..]), sites, env)
  {
    InstallGroupsConsRegs(gs, sites, env);
    RegisterEachAppend(gs[0].routes, Flatten(gs[1..]), sites, env);
  }

  /** The registrations of a group whose site resolves come first. */
  lemma InstallGroupsConsRegs(gs: seq<SiteGroup>, sites: map<int, string>, env: map<string, string>)
    requires gs != [] && Homogeneous(gs) && Resolvable(gs[0].siteId, sites, env)
    ensures InstallGroups(gs, sites, env).registrations ==
      RegisterEach(gs[0].routes, sites, env) + InstallGroups(gs[1..], sites, env).registrations
  {
    var g := gs[0];
    var head := RegisterAll(g.routes, DomainFor(g.siteId, sites, env));
    assert head == RegisterEach(g.routes, sites, env) by {
      forall k | 0 <= k < |g.routes|
        ensures head[k] == RegisterEach(g.routes, sites, env)[k]
      {
        assert g.routes[k] in gs[0].routes;
      }
    }
  }

  /** A later group that fails makes the whole loop fail at that group. */
  lemma InstallGroupsFailLater(gs: seq<SiteGroup>, sites: map<int, string>, env: map<string, string>)
    requires gs != [] && Homogeneous(gs) && Resolvable(gs[0].siteId, sites, env)
    requires var rest := InstallGroups(gs[1..], sites, env);
      exists f :: (0 <= f < |gs[1..]| && !Resolvable(gs[1..][f].siteId, sites, env) &&
        rest.registrations == RegisterEach(Flatten(gs[1..][..f]), sites, env))
    ensures var inst := InstallGroups(gs, sites, env);
      exists f :: (0 <= f < |gs| && !Resolvable(gs[f].siteId, sites, env) &&
        inst.registrations == RegisterEach(Flatten(gs[..f]), sites, env))
  {
    var rest := InstallGroups(gs[1..], sites, env);
    var f :| 0 <= f < |gs[1..]| && !Resolvable(gs[1..][f].siteId, sites, env) &&
      rest.registrations == RegisterEach(Flatten(gs[1..][..f]), sites, env);
    InstallGroupsConsRegs(gs, sites, env);
    var done := gs[..f + 1];
    assert done[0] == gs[0] && done[1..] == gs[1..][..f];
    assert Flatten(done) == gs[0].routes + Flatten(gs[1..][..f]);
    RegisterEachAppend(gs[0].routes, Flatten(gs[1..][..f]), sites, env);
    assert InstallGroups(gs, sites, env).registrations == RegisterEach(Flatten(done), sites, env);
    assert gs[f + 1] == gs[1..][f];
  }

  lemma RegisterEachAppend(a: seq<PageRoute>, b: seq<PageRoute>, sites: map<int, string>, env: map<string, string>)
    ensures RegisterEach(a + b, sites, env) == RegisterEach(a, sites, env) + RegisterEach(b, sites, env)
  {
  }

  lemma GroupBySiteHomogeneous(rs: seq<PageRoute>)
    ensures Homogeneous(GroupBySite(rs))
  {
    GroupBySiteSpec(rs);
  }

  /** Every group resolves exactly when every row's site resolves. */
  lemma GroupsResolvable(rows: seq<PageRow>, sites: map<int, string>, env: map<string, string>)
    ensures var g := GroupBySite(MaterialiseAll(rows));
      (forall i :: 0 <= i < |g| ==> Resolvable(g[i].siteId, sites, env)) <==>
      (forall x :: x in rows ==> Resolvable(x.siteId, sites, env))
  {
    var rs := MaterialiseAll(rows);
    var g := GroupBySite(rs);
    GroupBySiteSpec(rs);
    if forall i :: 0 <= i < |g| ==> Resolvable(g[i].siteId, sites, env) {
      forall x | x in rows
        ensures Resolvable(x.siteId, sites, env)
      {
        var k :| 0 <= k < |rows| && rows[k] == x;
        assert rs[k] in rs;
        var i :| 0 <= i < |g| && g[i].siteId == rs[k].siteId;
      }
    }
    if forall x :: x in rows ==> Resolvable(x.siteId, sites, env) {
      forall i | 0 <= i < |g|
        ensures Resolvable(g[i].siteId, sites, env)
      {
        var x := g[i].routes[0];
        assert x in OfSite(rs, g[i].siteId);
        var k :| 0 <= k < |rs| && rs[k] == x;
        assert rows[k] in rows;
      }
    }
  }

  /** Registrations of materialised routes all use the fixed handler. */
  lemma RegisterEachHandler(fl: seq<PageRoute>, rows: seq<PageRow>, sites: map<int, string>, env: map<string, string>)
    requires multiset(fl) == multiset(MaterialiseAll(rows))
    ensures |RegisterEach(fl, sites, env)| == |rows|
    ensures forall reg :: reg in RegisterEach(fl, sites, env) ==> reg.uses == Handler
  {
    var rs := MaterialiseAll(rows);
    assert |multiset(fl)| == |fl|;
    assert |multiset(rs)| == |rs|;
    var regs := RegisterEach(fl, sites, env);
    forall reg | reg in regs
      ensures reg.uses == Handler
    {
      var k :| 0 <= k < |regs| && regs[k] == reg;
      assert fl[k] in multiset(fl);
      assert fl[k] in rs;
    }
  }

  /** The routes loadRoutes registers for the rows of dvs_pages: when every
      site id > 0 resolves to a domain, each row yields exactly one
      registration, all with the fixed handler, each with its own site's
      domain, the site groups in order of first appearance and each group
      in table order; otherwise the loop throws. */
  lemma InstallRowsSpec(rows: seq<PageRow>, sites: map<int, string>, env: map<string, string>)
    ensures var g := GroupBySite(MaterialiseAll(rows));
      var inst := InstallGroups(g, sites, env);
      (inst.error.None? <==> forall x :: x in rows ==> Resolvable(x.siteId, sites, env)) &&
      (inst.error.None? ==>
         inst.registrations == RegisterEach(Flatten(g), sites, env) &&
         |inst.registrations| == |rows| &&
         multiset(Flatten(g)) == multiset(MaterialiseAll(rows)) &&
         forall reg :: reg in inst.registrations ==> reg.uses == Handler)
  {
    var rs := MaterialiseAll(rows);
    var g := GroupBySite(rs);
    GroupBySiteSpec(rs);
    GroupBySiteHomogeneous(rs);
    InstallGroupsSpec(g, sites, env);
    GroupsResolvable(rows, sites, env);
    RegisterEachHandler(Flatten(g), rows, sites, env);
  }
}
