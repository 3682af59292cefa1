/** The blocks that OIDC and external-auth policies add, among the locations of the routes: when
    one of them takes an internal path. */
module PolicyLocations {
  import opened Text
  import opened Nginx
  import opened LocationChoice
  import opened Routes
  import opened Compile
  import opened VariableNames
  import opened Layout
  import opened RouteMeaning
  import opened VirtualServers
  import opened TakenPaths
  import Oidc = OidcRegistry
  import Auth = ExternalAuth
  import Whole = VirtualServerPolicies
  import Policies

  /** Every OIDC location is at an exact path. */
  function OidcBlocks(s: Oidc.State): seq<Pattern> {
    var paths := Oidc.Rendered(s);
    seq(|paths|, i requires 0 <= i < |paths| => ExactPath(paths[i]))
  }

  /** External-auth locations are at plain paths. */
  function AuthBlocks(blocks: seq<Auth.Block>): seq<Pattern> {
    seq(|blocks|, i requires 0 <= i < |blocks| => PlainPath(blocks[i].path))
  }

  /** What the policies of a VirtualServer add, beside any other blocks. */
  function PolicyBlocks(s: Oidc.State, auths: seq<Auth.Auth>, early: seq<Pattern>, late: seq<Pattern>): AddedBlocks {
    AddedBlocks(early, OidcBlocks(s) + AuthBlocks(Auth.Run(auths).blocks) + late)
  }

  /** A provider that is rendered, or the NJS policy, asks for this path by name. */
  predicate AsksOidc(s: Oidc.State, path: string) {
    || (exists v :: v in Oidc.ByName(s.providers, {}) && (v.redirectUri == path || v.postLogoutLocation == Some(path)))
    || s.njs == Some(path)
  }

  predicate AsksSignin(blocks: seq<Auth.Block>, path: string) {
    exists i :: 0 <= i < |blocks| && blocks[i].signin && blocks[i].path == path
  }

  // ---- OIDC ----

  lemma OidcTakes(s: Oidc.State, q: Request, uri: string)
    ensures (exists p :: p in OidcBlocks(s) && Takes(p, q, uri)) <==> uri in Oidc.Rendered(s)
  {
    var paths := Oidc.Rendered(s);
    hide Oidc.Rendered;
    if uri in paths {
      var i :| 0 <= i < |paths| && paths[i] == uri;
      assert OidcBlocks(s)[i] == ExactPath(uri);
      assert ExactPath(uri) in OidcBlocks(s) && Takes(ExactPath(uri), q, uri);
    }
  }

  /** Only providers' own pages can be at a path like this; the rest begins with `/_` or `/oidc`. */
  predicate LooksInternal(path: string) { |path| > 1 && path[0] == '/' && path[1] == 'i' }

  ghost predicate ProxiesApart(s: Oidc.State) { forall v :: v in s.providers ==> |v.proxy| > 1 && v.proxy[1] == '_' }

  lemma {:induction false} RunProxies(rs: seq<Oidc.Registration>)
    ensures ProxiesApart(Oidc.Run(rs))
  {
    if |rs| > 0 {
      RunProxies(rs[..|rs| - 1]);
      var r := rs[|rs| - 1];
      if r.Native? {
        assert Oidc.ProxyOf(r.policy)[1] == '_';
      }
      hide Oidc.Admitted, Oidc.NjsAdmitted, Oidc.Registered, Oidc.NjsRegistered, Oidc.ProxyOf, Oidc.RedirectOf, Oidc.ProviderName;
    }
  }

  lemma FixedApart(path: string)
    requires LooksInternal(path)
    ensures path !in Oidc.NJS_FIXED
  {
    var f := Oidc.NJS_FIXED;
    assert f[0][1] == '_' && f[1][1] == '_' && f[2][1] == '_' && f[3][1] == '_' && f[4][1] == 'l' && f[5][1] == 'f' && f[6][1] == '_';
  }

  /** An OIDC location is at an internal path exactly when a policy asks for that path by name. */
  lemma RenderedExactly(rs: seq<Oidc.Registration>, path: string)
    requires LooksInternal(path)
    ensures path in Oidc.Rendered(Oidc.Run(rs)) <==> AsksOidc(Oidc.Run(rs), path)
  {
    var s := Oidc.Run(rs);
    RunProxies(rs);
    Oidc.RunValid(rs);
    Oidc.ValidClaimants(s);
    FixedApart(path);
    hide Oidc.Run, Oidc.NJS_FIXED, Oidc.Valid, Oidc.OneClaimant;
    var ps := Oidc.ByName(s.providers, {});
    Oidc.AllPathsMember(ps, path);
    forall v | v in ps
      ensures path in Oidc.Paths(v) <==> v.redirectUri == path || v.postLogoutLocation == Some(path)
    {
      assert v in s.providers;
      PathsOf(v, path);
    }
    hide Oidc.Paths, Oidc.ByName, Oidc.AllPaths;
  }

  lemma PathsOf(v: Oidc.Provider, path: string)
    ensures path in Oidc.Paths(v) <==> v.redirectUri == path || v.postLogoutLocation == Some(path) || v.proxy == path
  {
  }

  // ---- external auth ----

  lemma AuthTakes(auths: seq<Auth.Auth>, q: Request, uri: string)
    requires LooksInternal(uri)
    ensures var blocks := Auth.Run(auths).blocks; (exists p :: p in AuthBlocks(blocks) && Takes(p, q, uri)) <==> AsksSignin(blocks, uri)
  {
    Auth.RunValid(auths);
    var blocks := Auth.Run(auths).blocks;
    hide Auth.Run;
    forall i | 0 <= i < |blocks| && !blocks[i].signin
      ensures blocks[i].path != uri
    {
      assert blocks[i].path[1] == "/_external_auth"[1];
    }
    if i :| 0 <= i < |blocks| && blocks[i].signin && blocks[i].path == uri {
      assert AuthBlocks(blocks)[i] == PlainPath(uri);
      assert PlainPath(uri) in AuthBlocks(blocks) && Takes(PlainPath(uri), q, uri);
    }
  }

  // ---- the exact condition ----

  /** An internal path is nobody else's exactly when no route takes it, no other block does, no
      rendered OIDC policy asks for it, and no external-auth policy signs in there. */
  lemma NobodyTakesExactly(jobs: seq<Job>, rs: seq<Oidc.Registration>, auths: seq<Auth.Auth>, early: seq<Pattern>, late: seq<Pattern>, q: Request, path: string)
    requires LooksInternal(path)
    ensures NobodyTakes(jobs, PolicyBlocks(Oidc.Run(rs), auths, early, late), q, path) <==>
            && NoRouteTakes(jobs, q, path) && NoAddedTakes(AddedBlocks(early, late), q, path)
            && !AsksOidc(Oidc.Run(rs), path) && !AsksSignin(Auth.Run(auths).blocks, path)
  {
    var s, blocks := Oidc.Run(rs), Auth.Run(auths).blocks;
    OidcTakes(s, q, path);
    RenderedExactly(rs, path);
    AuthTakes(auths, q, path);
    hide Oidc.Run, Auth.Run, OidcBlocks, AuthBlocks, AsksOidc, AsksSignin, Takes, NoRouteTakes, Oidc.Rendered;
    var a, b := OidcBlocks(s), AuthBlocks(blocks);
    assert forall p :: p in a + b + late <==> p in a || p in b || p in late;
  }

  /** The same for the policies of a whole VirtualServer: its internal location has the path to
      itself exactly then. */
  lemma InternalPathKept(st: Settings, jobs: seq<Job>, q: Request, k: nat, tls: bool, spec: Policies.Found, routes: seq<Policies.Found>,
                         auths: seq<Auth.Auth>, early: seq<Pattern>, late: seq<Pattern>)
    requires Readable(st.namer) && Distinct(st.namer)
    requires var items := ItemsOf(st, Lay(st, jobs, 0, 0));
             k < |items| && items[k].at.Internal?
    ensures var pls, s := Lay(st, jobs, 0, 0), Whole.StateOf(Whole.WholePass(tls, spec, routes));
            var redirects, items, added := RedirectsOf(st, pls), ItemsOf(st, pls), PolicyBlocks(s, auths, early, late);
            var path := st.namer.path(items[k].at.spot);
            NoOtherTakes(Blocks(added, redirects, Locations(st, items, 0)), q, path, Start(added, redirects) + k) <==>
            && NoRouteTakes(jobs, q, path) && NoAddedTakes(AddedBlocks(early, late), q, path)
            && !AsksOidc(s, path) && !AsksSignin(Auth.Run(auths).blocks, path)
  {
    hide *;
    var path := st.namer.path(ItemsOf(st, Lay(st, jobs, 0, 0))[k].at.spot);
    Whole.PassIsRun(tls, spec, routes);
    InternalLooks(st, ItemsOf(st, Lay(st, jobs, 0, 0))[k].at.spot);
    InternalPathExclusive(st, PolicyBlocks(Whole.StateOf(Whole.WholePass(tls, spec, routes)), auths, early, late), jobs, q, k);
    NobodyTakesExactly(jobs, Whole.Events(tls, spec, routes), auths, early, late, q, path);
  }

  lemma InternalLooks(st: Settings, spot: Spot)
    requires Readable(st.namer)
    ensures LooksInternal(st.namer.path(spot))
  {
    var path := st.namer.path(spot);
    assert path[0] == "/internal_location_"[0] && path[1] == "/internal_location_"[1];
  }

  // ---- the path is lost ----

  /** One native policy by itself renders its callback and its proxy. */
  lemma SingleNative(p: Oidc.NativePolicy)
    requires p.redirectUri != "" && p.postLogoutUri == ""
    ensures var s := Oidc.Run([Oidc.Native(p, true)]);
            Oidc.Admitted(map[], p) && Oidc.Rendered(s) == [p.redirectUri, Oidc.ProxyOf(p)]
  {
    var rs := [Oidc.Native(p, true)];
    assert rs[..0] == [] && Oidc.Run(rs[..0]) == Oidc.INITIAL;
    hide Oidc.ProxyOf, Oidc.ProviderName, Oidc.Registered;
    var v := Oidc.ProviderOf(map[], p);
    assert Oidc.Run(rs).providers == [v] && Oidc.Run(rs).njs.None?;
    hide Oidc.Run;
    assert [v][1..] == [];
    assert Oidc.Deduplicated([v][1..], {} + {v.name}, {} + Oidc.Location(v)) == [];
    assert Oidc.Deduplicated([v], {}, {}) == [v];
    assert Oidc.Paths(v) == [p.redirectUri, Oidc.ProxyOf(p)];
    assert Oidc.AllPaths([v][1..]) == [];
    assert Oidc.AllPaths([v]) == Oidc.Paths(v);
  }

  lemma ProxyIsLong(p: Oidc.NativePolicy)
    ensures |Oidc.ProxyOf(p)| > 2
  {
  }

  lemma EntryApart(p: Oidc.NativePolicy)
    ensures ENTRY != FIRST_SPLIT && ENTRY != Oidc.ProxyOf(p) && FIRST_SPLIT != "" && |ENTRY| == 2
  {
    assert |ENTRY| == 2 && |FIRST_SPLIT| > 2;
    ProxyIsLong(p);
    hide Oidc.ProxyOf;
  }

  /** With one policy and nothing else, the added blocks are its own. */
  lemma OnlyOidc(s: Oidc.State, q: Request, uri: string)
    ensures var added := PolicyBlocks(s, [], [], []);
            && (NoAddedTakes(added, q, uri) <==> uri !in Oidc.Rendered(s))
            && (uri in Oidc.Rendered(s) ==> ExactPath(uri) in added.late)
  {
    OidcTakes(s, q, uri);
    var paths := Oidc.Rendered(s);
    hide Oidc.Rendered;
    assert Auth.Run([]).blocks == [];
    assert OidcBlocks(s) + AuthBlocks([]) + [] == OidcBlocks(s);
    if uri in paths {
      var i :| 0 <= i < |paths| && paths[i] == uri;
      assert OidcBlocks(s)[i] == ExactPath(uri);
    }
  }

  const OTHER := "/b"

  lemma OtherApart()
    ensures ReadPath(GeneratePath(OTHER)) == PlainPath(OTHER) && OTHER != ENTRY && OTHER != FIRST_SPLIT
  {
    SlashPath(OTHER);
    assert |OTHER| == 2 && OTHER[1] == 'b' && ENTRY[1] == 'a' && |FIRST_SPLIT| > 2;
    hide ReadPath, GeneratePath;
  }

  /** A native OIDC policy may ask for a split's internal path: it is accepted, and the requests of
      that split end at its block. */
  lemma OidcTakesPath(safe: string, id: string, q: Request)
    requires AllWord(safe) && MatchesAnchoredDigits(q)
    ensures var policy := Oidc.NativePolicy(id, FIRST_SPLIT, "");
            var s := Oidc.Run([Oidc.Native(policy, true)]);
            && Oidc.Admitted(map[], policy)
            && Follow(BesideConfig(safe, OtherRoute(OTHER), PolicyBlocks(s, [], [], [])), q, ENTRY, 4, URI_CHANGES) == None
  {
    hide ReadPath, GeneratePath, ConfigOf, ValidRoute, AllWord, MatchesAnchoredDigits, Follow, VirtualServerNamer, Oidc.Run, Oidc.Rendered, PolicyBlocks, Oidc.ProxyOf;
    hide FIRST_SPLIT, ENTRY, OTHER, NoAddedTakes, Oidc.Admitted;
    var policy := Oidc.NativePolicy(id, FIRST_SPLIT, "");
    var s := Oidc.Run([Oidc.Native(policy, true)]);
    EntryApart(policy);
    SingleNative(policy);
    OtherRouteValid(OTHER);
    OtherApart();
    OnlyOidc(s, q, FIRST_SPLIT);
    OnlyOidc(s, q, ENTRY);
    ServedByPolicy(safe, OtherRoute(OTHER), PolicyBlocks(s, [], [], []), q);
  }
}
