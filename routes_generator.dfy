/** RoutesGenerator: the route cache state machine of `cacheRoutes` and
    its guard, and `loadRoutes`, which registers the page routes on the
    router unless the host's route cache already serves them.

    The host application is reduced to what these methods observe: whether
    Laravel's route cache file exists (`routesAreCached`), the Devise route
    cache file, and a log of the effects issued (Artisan commands, file
    writes and deletions). Rendering the cache view and running an Artisan
    command are parameters: a render either returns the file text or
    throws, an Artisan command either succeeds or throws a message. */
module RouteGeneration {
  import opened Common
  import opened SlugNormalisation
  import opened PageStore
  import opened RouteTable

  /** The exception text of assertRouteCachingValid. */
  const ForbiddenMessage: string := "Devise" + " will not work proprely when Laravel routes are cached and DEVISE_CACHE_ENABLED=false. For more information on how to address this error please visit, http://devisephp.com/docs/common-errors#route-caching"

  /** The one combination the guard refuses: the host serves cached routes
      while Devise routes are disabled. */
  predicate CachingValid(hostCached: bool, enabled: bool) {
    !(hostCached && !enabled)
  }

  /** An effect on the host, in the order issued. */
  datatype Effect = Artisan(command: string) | Put(path: string, contents: string) | Delete(path: string)

  /** What cacheRoutes reads and changes. */
  datatype CacheState = CacheState(hostCached: bool, cacheFile: Option<string>, log: seq<Effect>)

  /** `cacheRoutes()`: the new state and what the call returned or threw.
      Disabled: `route:clear`, then the Devise file is deleted if it exists,
      and false is returned. Enabled: the routes are rendered, written to
      the cache path, `route:cache` is run and true is returned. An
      exception stops the sequence where it is thrown. */
  function Rebuild(st: CacheState, enabled: bool, cachePath: string, rows: seq<PageRow>,
                   render: seq<PageRoute> -> Outcome<string>, artisan: string -> Option<string>): (CacheState, Outcome<bool>)
  {
    if !enabled then
      var cleared := st.(log := st.log + [Artisan("route:clear")]);
      match artisan("route:clear")
      case Some(msg) => (cleared, Raised(msg))
      case None =>
        var deleted := if st.cacheFile.Some? then [Delete(cachePath)] else [];
        (CacheState(false, None, cleared.log + deleted), Returned(false))
    else
      match render(MaterialiseAll(rows))
      case Raised(msg) => (st, Raised(msg))
      case Returned(text) =>
        var written := CacheState(st.hostCached, Some(text), st.log + [Put(cachePath, text), Artisan("route:cache")]);
        match artisan("route:cache")
        case Some(msg) => (written, Raised(msg))
        case None => (written.(hostCached := true), Returned(true))
  }

  predicate IsPut(e: Effect) { e.Put? }

  /** What cacheRoutes does to the files, whatever the collaborators do:
      disabled, nothing is written, `route:clear` is the first effect and
      the Devise file is deleted only if it existed, after which no cache
      of either kind is left; enabled, nothing is deleted, and when the
      view renders the rendered table of the current rows is written before
      `route:cache` runs. When the call returns, the guard holds
      afterwards. */
  lemma RebuildSpec(st: CacheState, enabled: bool, cachePath: string, rows: seq<PageRow>,
                    render: seq<PageRoute> -> Outcome<string>, artisan: string -> Option<string>)
    ensures var (st', out) := Rebuild(st, enabled, cachePath, rows, render, artisan);
      st.log <= st'.log &&
      (!enabled ==>
         |st'.log| > |st.log| && st'.log[|st.log|] == Artisan("route:clear") &&
         (forall k :: |st.log| <= k < |st'.log| ==> !IsPut(st'.log[k])) &&
         (Delete(cachePath) in st'.log[|st.log|..] <==> st.cacheFile.Some? && out.Returned?) &&
         (out.Returned? ==> out.value == false && !st'.hostCached && st'.cacheFile.None?) &&
         (out.Raised? ==> st'.hostCached == st.hostCached && st'.cacheFile == st.cacheFile)) &&
      (enabled ==>
         (forall k :: |st.log| <= k < |st'.log| ==> !st'.log[k].Delete?) &&
         (render(MaterialiseAll(rows)).Raised? ==> st' == st && out.Raised?) &&
         (render(MaterialiseAll(rows)).Returned? ==>
            st'.cacheFile == Some(render(MaterialiseAll(rows)).value) &&
            st'.log == st.log + [Put(cachePath, st'.cacheFile.value), Artisan("route:cache")]) &&
         (out.Returned? ==> out.value == true && st'.hostCached)) &&
      (out.Returned? ==> CachingValid(st'.hostCached, enabled))
  {
    var (st', out) := Rebuild(st, enabled, cachePath, rows, render, artisan);
    if !enabled && artisan("route:clear").None? {
      var tail := if st.cacheFile.Some? then [Delete(cachePath)] else [];
      assert st'.log == st.log + [Artisan("route:clear")] + tail;
      assert st'.log[|st.log|..] == [Artisan("route:clear")] + tail;
    } else if !enabled {
      assert st'.log[|st.log|..] == [Artisan("route:clear")];
    }
  }

  /** `loadRoutes()`: what is registered and the exception that ends it. */
  function Load(inConsole: bool, hostCached: bool, enabled: bool, rows: seq<PageRow>,
                sites: map<int, string>, env: map<string, string>): Installed
  {
    if inConsole then Installed([], None)
    else if !CachingValid(hostCached, enabled) then Installed([], Some(ForbiddenMessage))
    else if hostCached then Installed([], None)
    else InstallGroups(GroupBySite(MaterialiseAll(rows)), sites, env)
  }

  lemma ForbiddenIsNotUndefinedSite(siteId: int)
    ensures UndefinedSite(siteId) != ForbiddenMessage
  {
    assert UndefinedSite(siteId)[0] == 'U';
    assert ForbiddenMessage[0] == 'D';
  }

  lemma InstallErrorIsUndefinedSite(gs: seq<SiteGroup>, sites: map<int, string>, env: map<string, string>)
    ensures InstallGroups(gs, sites, env).error.Some? ==>
      exists s :: InstallGroups(gs, sites, env).error.value == UndefinedSite(s)
    decreases |gs|
  {
    if gs != [] {
      InstallErrorIsUndefinedSite(gs[1..], sites, env);
    }
  }

  /** loadRoutes, case by case: in the console nothing is registered and
      the guard is not run; otherwise the guard throws exactly when the
      host routes are cached and Devise routes are disabled; with the host
      cache in use and Devise enabled nothing is registered and nothing is
      thrown; with no host
      cache every page row is registered once, with the fixed handler,
      unless a site's domain cannot be resolved. */
  lemma LoadSpec(inConsole: bool, hostCached: bool, enabled: bool, rows: seq<PageRow>,
                 sites: map<int, string>, env: map<string, string>)
    ensures var inst := Load(inConsole, hostCached, enabled, rows, sites, env);
      (inConsole ==> inst == Installed([], None)) &&
      (!inConsole ==> (inst.error == Some(ForbiddenMessage) <==> hostCached && !enabled)) &&
      (!inConsole && hostCached ==> inst.registrations == []) &&
      (!inConsole && hostCached && enabled ==> inst == Installed([], None)) &&
      (!inConsole && !hostCached ==>
         (inst.error.None? <==> forall x :: x in rows ==> Resolvable(x.siteId, sites, env)) &&
         (inst.error.None? ==> (|inst.registrations| == |rows| &&
            forall reg :: reg in inst.registrations ==> reg.uses == Handler)))
  {
    if !inConsole && !hostCached {
      var g := GroupBySite(MaterialiseAll(rows));
      InstallRowsSpec(rows, sites, env);
      InstallErrorIsUndefinedSite(g, sites, env);
      if InstallGroups(g, sites, env).error.Some? {
        var s :| InstallGroups(g, sites, env).error.value == UndefinedSite(s);
        ForbiddenIsNotUndefinedSite(s);
      }
    }
  }

  /** After cacheRoutes returns with Devise routes enabled, the next
      request passes the guard and takes the "already cached" exit; after
      it returns with them disabled, the next request passes the guard and
      registers the routes from the table. */
  lemma RebuildThenLoad(st: CacheState, enabled: bool, cachePath: string, rows: seq<PageRow>,
                        render: seq<PageRoute> -> Outcome<string>, artisan: string -> Option<string>,
                        sites: map<int, string>, env: map<string, string>)
    requires Rebuild(st, enabled, cachePath, rows, render, artisan).1.Returned?
    ensures var st' := Rebuild(st, enabled, cachePath, rows, render, artisan).0;
      var inst := Load(false, st'.hostCached, enabled, rows, sites, env);
      inst.error != Some(ForbiddenMessage) &&
      (enabled ==> inst == Installed([], None)) &&
      (!enabled ==> inst == InstallGroups(GroupBySite(MaterialiseAll(rows)), sites, env))
  {
    RebuildSpec(st, enabled, cachePath, rows, render, artisan);
    LoadSpec(false, Rebuild(st, enabled, cachePath, rows, render, artisan).0.hostCached, enabled, rows, sites, env);
  }

  /** One turn of the loop over site groups. */
  lemma InstallStep(gs: seq<SiteGroup>, k: nat, sites: map<int, string>, env: map<string, string>)
    requires k < |gs|
    ensures var here := InstallGroups(gs[k..], sites, env);
      var next := InstallGroups(gs[k + 1..], sites, env);
      if gs[k].siteId > 0 && SiteDomain(gs[k].siteId, sites, env).None? then
        here == Installed([], Some(UndefinedSite(gs[k].siteId)))
      else
        here == Installed(RegisterAll(gs[k].routes, DomainFor(gs[k].siteId, sites, env)) + next.registrations, next.error)
  {
    assert gs[k..][1..] == gs[k + 1..];
  }

  /** A group whose site resolves: its registrations join those done. */
  lemma InstallAdvance(full: Installed, done: seq<Registration>, gs: seq<SiteGroup>, k: nat,
                       sites: map<int, string>, env: map<string, string>)
    requires k < |gs| && Resolvable(gs[k].siteId, sites, env)
    requires full.registrations == done + InstallGroups(gs[k..], sites, env).registrations
    requires full.error == InstallGroups(gs[k..], sites, env).error
    ensures full.registrations ==
      (done + RegisterAll(gs[k].routes, DomainFor(gs[k].siteId, sites, env))) + InstallGroups(gs[k + 1..], sites, env).registrations
    ensures full.error == InstallGroups(gs[k + 1..], sites, env).error
  {
    InstallStep(gs, k, sites, env);
  }

  /** A group whose site does not resolve: the loop ends with what is done. */
  lemma InstallStop(full: Installed, done: seq<Registration>, gs: seq<SiteGroup>, k: nat,
                    sites: map<int, string>, env: map<string, string>)
    requires k < |gs| && !Resolvable(gs[k].siteId, sites, env)
    requires full.registrations == done + InstallGroups(gs[k..], sites, env).registrations
    requires full.error == InstallGroups(gs[k..], sites, env).error
    ensures full.registrations == done && full.error == Some(UndefinedSite(gs[k].siteId))
  {
    InstallStep(gs, k, sites, env);
  }

  /** The generator with its collaborators: the database, the two config
      values, whether PHP runs in the console, the environment, the view
      renderer and Artisan, and the host state it changes. */
  class RoutesGenerator {
    const db: Database
    /** `devise.routes.enabled`. */
    const enabled: bool
    /** `devise.routes.cache`. */
    const cachePath: string
    const inConsole: bool
    const env: map<string, string>
    /** The `devise::layouts.routes` view. */
    const render: seq<PageRoute> -> Outcome<string>
    /** `Artisan::call`: None when the command succeeds, else its exception. */
    const artisan: string -> Option<string>

    /** Whether the host's route cache file exists (`routesAreCached`). */
    var hostCached: bool
    /** The Devise route cache file at `cachePath`, if it exists. */
    var cacheFile: Option<string>
    /** Effects issued on the host, oldest first. */
    var log: seq<Effect>
    /** The router: every route registered so far. */
    var registrations: seq<Registration>

    constructor (db: Database, enabled: bool, cachePath: string, inConsole: bool, env: map<string, string>,
                 render: seq<PageRoute> -> Outcome<string>, artisan: string -> Option<string>,
                 hostCached: bool, cacheFile: Option<string>)
      ensures this.db == db && this.enabled == enabled && this.cachePath == cachePath
      ensures this.inConsole == inConsole && this.env == env
      ensures this.render == render && this.artisan == artisan
      ensures this.hostCached == hostCached && this.cacheFile == cacheFile
      ensures log == [] && registrations == []
    {
      this.db := db;
      this.enabled := enabled;
      this.cachePath := cachePath;
      this.inConsole := inConsole;
      this.env := env;
      this.render := render;
      this.artisan := artisan;
      this.hostCached := hostCached;
      this.cacheFile := cacheFile;
      log := [];
      registrations := [];
    }

    function State(): CacheState
      reads this
    {
      CacheState(hostCached, cacheFile, log)
    }

    /** `assertRouteCachingValid()`: the exception message, if it throws. */
    method AssertRouteCachingValid() returns (error: Option<string>)
      ensures error.Some? <==> hostCached && !enabled
      ensures error.Some? ==> error.value == ForbiddenMessage
    {
      if hostCached && !enabled {
        return Some(ForbiddenMessage);
      }
      return None;
    }

    /** `findDvsPageRoutes()`: each selected row has its slug rewritten and
        its handler set, in place. */
    method FindDvsPageRoutes() returns (routes: seq<PageRoute>)
      ensures routes == MaterialiseAll(RowsOf(db.pages))
    {
      var rows := RowsOf(db.pages);
      var pages := new PageRoute[|rows|](i requires 0 <= i < |rows| =>
        PageRoute(rows[i].httpVerb, rows[i].slug, rows[i].routeName, rows[i].middleware, rows[i].siteId, ""));
      for i := 0 to pages.Length
        invariant forall j :: 0 <= j < i ==> pages[j] == Materialise(rows[j])
        invariant forall j :: i <= j < pages.Length ==>
          pages[j] == PageRoute(rows[j].httpVerb, rows[j].slug, rows[j].routeName, rows[j].middleware, rows[j].siteId, "")
      {
        pages[i] := pages[i].(slug := NormaliseSlug(pages[i].slug), uses := Handler);
      }
      routes := pages[..];
    }

    /** `loadRoutes()`: registers on the router what Load says, stopping at
        the exception Load reports. */
    method LoadRoutes() returns (error: Option<string>)
      modifies this`registrations
      ensures var inst := Load(inConsole, hostCached, enabled, RowsOf(db.pages), db.sites, env);
        registrations == old(registrations) + inst.registrations && error == inst.error
    {
      if inConsole {
        return None;
      }
      error := AssertRouteCachingValid();
      if error.Some? {
        return;
      }
      if hostCached {
        return None;
      }
      var routes := FindDvsPageRoutes();
      error := InstallSiteGroups(GroupBySite(routes));
    }

    /** The `foreach ($routesBySite as $siteId => $routes)` loop. */
    method InstallSiteGroups(groups: seq<SiteGroup>) returns (error: Option<string>)
      modifies this`registrations
      ensures var inst := InstallGroups(groups, db.sites, env);
        registrations == old(registrations) + inst.registrations && error == inst.error
    {
      ghost var full := InstallGroups(groups, db.sites, env);
      ghost var done: seq<Registration> := [];
      for k := 0 to |groups|
        invariant registrations == old(registrations) + done
        invariant full.registrations == done + InstallGroups(groups[k..], db.sites, env).registrations
        invariant full.error == InstallGroups(groups[k..], db.sites, env).error
      {
        var g := groups[k];
        var domain: Option<string> := None;
        if g.siteId > 0 {
          domain := SiteDomain(g.siteId, db.sites, env);
          if domain.None? {
            InstallStop(full, done, groups, k, db.sites, env);
            return Some(UndefinedSite(g.siteId));
          }
        }
        InstallAdvance(full, done, groups, k, db.sites, env);
        RegisterGroup(g.routes, domain);
        done := done + RegisterAll(g.routes, domain);
      }
      assert groups[|groups|..] == [];
      return None;
    }

    /** The closure passed to `Route::group` (or the loop for site 0):
        one registration per route, in order, under the group's domain. */
    method RegisterGroup(routes: seq<PageRoute>, domain: Option<string>)
      modifies this`registrations
      ensures registrations == old(registrations) + RegisterAll(routes, domain)
    {
      for j := 0 to |routes|
        invariant registrations == old(registrations) + RegisterAll(routes[..j], domain)
      {
        assert routes[..j + 1] == routes[..j] + [routes[j]];
        registrations := registrations + [RegistrationOf(routes[j], domain)];
      }
      assert routes[..|routes|] == routes;
    }

    /** `clearLaravelCache()`: `route:clear`, which removes the host's
        route cache unless it throws. */
    method ClearLaravelCache() returns (error: Option<string>)
      modifies this`hostCached, this`log
      ensures log == old(log) + [Artisan("route:clear")]
      ensures error == artisan("route:clear")
      ensures hostCached == (if error.None? then false else old(hostCached))
    {
      log := log + [Artisan("route:clear")];
      error := artisan("route:clear");
      if error.None? {
        hostCached := false;
      }
    }

    /** `clearDeviseRoutes()`: deletes the Devise file only if it exists. */
    method ClearDeviseRoutes()
      modifies this`cacheFile, this`log
      ensures cacheFile.None?
      ensures log == old(log) + (if old(cacheFile).Some? then [Delete(cachePath)] else [])
    {
      if cacheFile.Some? {
        log := log + [Delete(cachePath)];
        cacheFile := None;
      }
    }

    /** `cacheRoutes()`: the new host state and result are those of
        Rebuild on the current page rows. */
    method CacheRoutes() returns (result: Outcome<bool>)
      modifies this`hostCached, this`cacheFile, this`log
      ensures (State(), result) == Rebuild(old(State()), enabled, cachePath, RowsOf(db.pages), render, artisan)
    {
      if !enabled {
        var error := ClearLaravelCache();
        if error.Some? {
          return Raised(error.value);
        }
        ClearDeviseRoutes();
        return Returned(false);
      }
      var routes := FindDvsPageRoutes();
      var rendered := render(routes);
      if rendered.Raised? {
        return Raised(rendered.message);
      }
      cacheFile := Some(rendered.value);
      log := log + [Put(cachePath, rendered.value), Artisan("route:cache")];
      var error := artisan("route:cache");
      if error.Some? {
        return Raised(error.value);
      }
      hostCached := true;
      return Returned(true);
    }
  }
}
