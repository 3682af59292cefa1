/** The policies of a whole VirtualServer: its spec, then its routes and subroutes, one after
    the other, over one registry and at most one NJS OIDC policy. */
module VirtualServerPolicies {
  import opened Text
  import opened OidcRegistry
  import opened Policies

  /** One place that lists policies. */
  datatype Scope = Scope(namespace: string, refs: seq<Reference>)

  /** The OIDC side of a generated location. */
  datatype Mark = Mark(denied: bool, njs: Option<NjsConfig>, provider: Option<string>)

  /** `server` is the policy that the server block renders; `marks` are the locations'. */
  datatype Pass = Pass(owners: Registry, server: Option<NjsConfig>, providers: seq<Provider>, marks: seq<Mark>)

  function FoundIn(policies: map<string, Policy>, scope: Scope): Found {
    LookupAll(Holder(scope.namespace, false), policies, scope.refs)
  }

  /** What a context found in the policies that name it contributes by itself. */
  ghost function OwnNjs(c: Context, reg: Registry, ps: Found): Option<NjsConfig> {
    if IsDenied(c, reg, ps) then None else Declared(c, reg, ps).njs
  }

  ghost function OwnProvider(c: Context, reg: Registry, ps: Found): Option<Provider> {
    if IsDenied(c, reg, ps) then None else Declared(c, reg, ps).provider
  }

  function Listed(p: Option<Provider>): seq<Provider> { if p.Some? then [p.value] else [] }

  ghost function SpecPass(tls: bool, ps: Found): Pass {
    var c := Context(true, tls, None);
    Pass(OwnersAfter(c, map[], ps), OwnNjs(c, map[], ps), Listed(OwnProvider(c, map[], ps)), [])
  }

  /** A route or subroute. `specHasNjs` says whether the spec itself carries an NJS policy. */
  ghost function RouteStep(tls: bool, specHasNjs: bool, s: Pass, ps: Found): Pass {
    var c := Context(false, tls, s.server);
    var njs, provider := OwnNjs(c, s.owners, ps), OwnProvider(c, s.owners, ps);
    Pass(
      OwnersAfter(c, s.owners, ps),
      if njs.Some? then njs else s.server,
      s.providers + Listed(provider),
      s.marks + [Mark(
        IsDenied(c, s.owners, ps),
        if provider.Some? then None else if njs.Some? then njs else if specHasNjs then s.server else None,
        if provider.Some? then Some(provider.value.name) else None)])
  }

  ghost function Routes(tls: bool, specHasNjs: bool, s: Pass, routes: seq<Found>): Pass {
    if |routes| == 0 then s
    else RouteStep(tls, specHasNjs, Routes(tls, specHasNjs, s, routes[..|routes| - 1]), routes[|routes| - 1])
  }

  ghost function WholePass(tls: bool, spec: Found, routes: seq<Found>): Pass {
    var s := SpecPass(tls, spec);
    Routes(tls, s.server.Some?, s, routes)
  }

  // ---- at most one NJS policy ----

  /** A context that names an NJS policy while another is in use contributes no other. */
  lemma OwnNjsIsServers(c: Context, reg: Registry, ps: Found)
    requires c.njs.Some? && OwnNjs(c, reg, ps).Some?
    ensures OwnNjs(c, reg, ps) == c.njs
  {
    hide IsDenied, ProviderOf;
  }

  /** Once set, the policy that the server renders stays. */
  lemma ServerStays(tls: bool, specHasNjs: bool, s: Pass, ps: Found)
    requires s.server.Some?
    ensures RouteStep(tls, specHasNjs, s, ps).server == s.server
  {
    var c := Context(false, tls, s.server);
    hide OwnNjs, OwnProvider, OwnersAfter, IsDenied;
    if OwnNjs(c, s.owners, ps).Some? {
      OwnNjsIsServers(c, s.owners, ps);
    }
  }

  ghost predicate Governed(s: Pass) {
    forall i :: 0 <= i < |s.marks| && s.marks[i].njs.Some? ==> s.marks[i].njs == s.server
  }

  lemma {:induction false} RoutesGoverned(tls: bool, specHasNjs: bool, s: Pass, routes: seq<Found>)
    requires |s.marks| == 0 && (specHasNjs ==> s.server.Some?)
    ensures var t := Routes(tls, specHasNjs, s, routes);
            Governed(t) && |t.marks| == |routes| && (s.server.Some? ==> t.server == s.server)
  {
    if |routes| > 0 {
      var init, ps := routes[..|routes| - 1], routes[|routes| - 1];
      RoutesGoverned(tls, specHasNjs, s, init);
      var t := Routes(tls, specHasNjs, s, init);
      if t.server.Some? {
        ServerStays(tls, specHasNjs, t, ps);
      }
      hide OwnNjs, OwnProvider, OwnersAfter, IsDenied, Routes;
      var u := RouteStep(tls, specHasNjs, t, ps);
      assert forall i :: 0 <= i < |t.marks| ==> u.marks[i] == t.marks[i];
    }
  }

  /** Every location protected by an NJS policy is protected by the one that the server block
      renders, whatever the spec, the routes and the subroutes name. */
  lemma OneNjsPolicy(tls: bool, spec: Found, routes: seq<Found>)
    ensures Governed(WholePass(tls, spec, routes))
  {
    SpecUnmarked(tls, spec);
    hide SpecPass;
    RoutesGoverned(tls, SpecPass(tls, spec).server.Some?, SpecPass(tls, spec), routes);
  }

  lemma SpecUnmarked(tls: bool, spec: Found)
    ensures SpecPass(tls, spec).marks == []
  {
  }

  /** The pass just before route `i`. */
  ghost function Before(tls: bool, spec: Found, routes: seq<Found>, i: nat): Pass
    requires i <= |routes|
  {
    WholePass(tls, spec, routes[..i])
  }

  /** A context whose first OIDC policy is an NJS policy other than the one in use gets 500. */
  lemma OtherPolicyDenied(tls: bool, specHasNjs: bool, s: Pass, ps: Found)
    requires var f := FirstOidc(ps);
             f < |ps| && ps[f].value.NjsOidc? && s.server.Some? && ps[f].value.config.key != s.server.value.key
    ensures RouteStep(tls, specHasNjs, s, ps).marks == s.marks + [Mark(true, if specHasNjs then s.server else None, None)]
  {
    var c := Context(false, tls, s.server);
    FirstOidcDecides(c, s.owners, ps);
    hide IsDenied, OwnersAfter, Declared, FirstOidc;
  }

  /** Route `i` is protected by NJS exactly when it is accepted and its first OIDC policy is
      an NJS policy, or when the spec's own policy protects it and it has no native provider:
      what earlier routes name makes no difference. */
  lemma NoLeak(tls: bool, spec: Found, routes: seq<Found>, i: nat)
    requires i < |routes|
    ensures var s := Before(tls, spec, routes, i);
            var c := Context(false, tls, s.server);
            var ps, f := routes[i], FirstOidc(routes[i]);
            var marks := WholePass(tls, spec, routes).marks;
            && |marks| == |routes|
            && (marks[i].njs.Some? <==>
                || (!IsDenied(c, s.owners, ps) && f < |ps| && ps[f].value.NjsOidc?)
                || (SpecPass(tls, spec).server.Some? && (IsDenied(c, s.owners, ps) || !(f < |ps| && ps[f].value.NativeOidc?))))
  {
    var s0 := SpecPass(tls, spec);
    SpecUnmarked(tls, spec);
    hide SpecPass;
    RoutesGoverned(tls, s0.server.Some?, s0, routes);
    RoutesGoverned(tls, s0.server.Some?, s0, routes[..i]);
    MarkStays(tls, s0.server.Some?, s0, routes, i);
    var s := Before(tls, spec, routes, i);
    assert s == Routes(tls, s0.server.Some?, s0, routes[..i]);
    OwnMark(Context(false, tls, s.server), s.owners, routes[i]);
    hide OwnNjs, OwnProvider, OwnersAfter, IsDenied, Routes;
  }

  lemma OwnMark(c: Context, reg: Registry, ps: Found)
    ensures var f := FirstOidc(ps);
            && (OwnNjs(c, reg, ps).Some? <==> !IsDenied(c, reg, ps) && f < |ps| && ps[f].value.NjsOidc?)
            && (OwnProvider(c, reg, ps).Some? <==> !IsDenied(c, reg, ps) && f < |ps| && ps[f].value.NativeOidc?)
  {
    hide IsDenied, ProviderOf;
  }

  lemma {:induction false} MarkStays(tls: bool, specHasNjs: bool, s: Pass, routes: seq<Found>, i: nat)
    requires i < |routes| && |s.marks| == 0
    ensures |Routes(tls, specHasNjs, s, routes[..i]).marks| == i
    ensures var t := RouteStep(tls, specHasNjs, Routes(tls, specHasNjs, s, routes[..i]), routes[i]);
            |t.marks| == i + 1 && |Routes(tls, specHasNjs, s, routes).marks| == |routes| &&
            Routes(tls, specHasNjs, s, routes).marks[i] == t.marks[i]
  {
    MarkCount(tls, specHasNjs, s, routes[..i]);
    MarkCount(tls, specHasNjs, s, routes);
    MarkCount(tls, specHasNjs, s, routes[..|routes| - 1]);
    hide OwnNjs, OwnProvider, OwnersAfter, IsDenied;
    if i < |routes| - 1 {
      var init := routes[..|routes| - 1];
      assert init[..i] == routes[..i] && init[i] == routes[i];
      MarkStays(tls, specHasNjs, s, init, i);
    }
  }

  lemma {:induction false} MarkCount(tls: bool, specHasNjs: bool, s: Pass, routes: seq<Found>)
    requires |s.marks| == 0
    ensures |Routes(tls, specHasNjs, s, routes).marks| == |routes|
  {
    hide OwnNjs, OwnProvider, OwnersAfter, IsDenied;
    if |routes| > 0 {
      MarkCount(tls, specHasNjs, s, routes[..|routes| - 1]);
    }
  }

  // ---- the pass as a run of registrations ----

  ghost function StateOf(s: Pass): State {
    State(s.owners, s.providers, if s.server.Some? then Some(s.server.value.redirect) else None)
  }

  /** The registration that a context makes, if it makes one. */
  ghost function Event(c: Context, reg: Registry, ps: Found): seq<Registration> {
    var f := FirstOidc(ps);
    if !Reaches(c, reg, ps, f) then []
    else match ps[f].value
      case NativeOidc(native, secretsOk) => if secretsOk then [Native(native, !IsDenied(c, reg, ps))] else []
      case NjsOidc(config, secretOk, _) => if c.njs.None? && secretOk then [Njs(config.redirect, !IsDenied(c, reg, ps))] else []
  }

  lemma FirstOidcDecides(c: Context, reg: Registry, ps: Found)
    ensures var f := FirstOidc(ps);
            f < |ps| ==> (FailsAt(c, reg, ps, f) <==> OidcFails(c, reg, ps[f].value))
    ensures var f := FirstOidc(ps);
            f < |ps| && (!Reaches(c, reg, ps, f) || OidcFails(c, reg, ps[f].value)) ==> IsDenied(c, reg, ps)
  {
    var f := FirstOidc(ps);
    if f < |ps| {
      assert FirstOidc(ps[..f]) == f;
      hide OidcFails, ConflictingTiers;
    }
  }

  /** Whatever a context does to the registry, the providers and the NJS policy is one step
      of a registry run, or nothing. */
  lemma ContextIsStep(tls: bool, specHasNjs: bool, s: Pass, ps: Found)
    ensures var c := Context(false, tls, s.server);
            var e := Event(c, s.owners, ps);
            StateOf(RouteStep(tls, specHasNjs, s, ps)) == if |e| == 0 then StateOf(s) else Step(StateOf(s), e[0])
  {
    var c, f := Context(false, tls, s.server), FirstOidc(ps);
    FirstOidcDecides(c, s.owners, ps);
    OwnMark(c, s.owners, ps);
    ContextEffect(c, s.owners, ps);
    assert Reaches(c, s.owners, ps, f) ==> f < |ps|;
    hide IsDenied, Reaches, FirstOidc, Registered, NjsRegistered, ProviderOf, Admitted, NjsAdmitted, OwnNjs, OwnProvider;
    assert s.providers + [] == s.providers;
  }

  lemma ContextEffect(c: Context, reg: Registry, ps: Found)
    ensures var njs, provider := OwnNjs(c, reg, ps), OwnProvider(c, reg, ps);
            var f := FirstOidc(ps);
            && (njs.Some? ==> njs == if c.njs.Some? then c.njs else Some(ps[f].value.config))
            && (provider.Some? ==> provider == Some(ProviderOf(reg, ps[f].value.native)))
  {
    hide IsDenied, ProviderOf;
  }

  /** The registrations of the spec and of the routes, in order. */
  ghost function Events(tls: bool, spec: Found, routes: seq<Found>): seq<Registration> {
    if |routes| == 0 then Event(Context(true, tls, None), map[], spec)
    else
      var init := routes[..|routes| - 1];
      var s := WholePass(tls, spec, init);
      Events(tls, spec, init) + Event(Context(false, tls, s.server), s.owners, routes[|routes| - 1])
  }

  lemma SpecIsStep(tls: bool, spec: Found)
    ensures var e := Event(Context(true, tls, None), map[], spec);
            StateOf(SpecPass(tls, spec)) == if |e| == 0 then INITIAL else Step(INITIAL, e[0])
  {
    var c, f := Context(true, tls, None), FirstOidc(spec);
    FirstOidcDecides(c, map[], spec);
    OwnMark(c, map[], spec);
    ContextEffect(c, map[], spec);
    assert Reaches(c, map[], spec, f) ==> f < |spec|;
    hide IsDenied, Reaches, FirstOidc, Registered, NjsRegistered, ProviderOf, Admitted, NjsAdmitted, OwnNjs, OwnProvider;
  }

  lemma RunAppend(rs: seq<Registration>, e: seq<Registration>)
    requires |e| <= 1
    ensures Run(rs + e) == if |e| == 0 then Run(rs) else Step(Run(rs), e[0])
  {
    if |e| == 0 {
      assert rs + e == rs;
    } else {
      assert (rs + e)[..|rs|] == rs && (rs + e)[|rs|] == e[0];
    }
  }

  /** The pass over a VirtualServer is a registry run. */
  lemma {:induction false} PassIsRun(tls: bool, spec: Found, routes: seq<Found>)
    ensures StateOf(WholePass(tls, spec, routes)) == Run(Events(tls, spec, routes))
  {
    if |routes| == 0 {
      SpecIsStep(tls, spec);
      var e := Event(Context(true, tls, None), map[], spec);
      RunAppend([], e);
      assert [] + e == e;
    } else {
      var init, ps := routes[..|routes| - 1], routes[|routes| - 1];
      var s, specHasNjs := WholePass(tls, spec, init), SpecPass(tls, spec).server.Some?;
      PassIsRun(tls, spec, init);
      assert WholePass(tls, spec, routes) == RouteStep(tls, specHasNjs, s, ps);
      ContextIsStep(tls, specHasNjs, s, ps);
      RunAppend(Events(tls, spec, init), Event(Context(false, tls, s.server), s.owners, ps));
      hide WholePass, RouteStep, StateOf, Event;
    }
  }

  /** So no OIDC location of a VirtualServer is rendered twice, exactly when each rendered
      policy's own paths are distinct. */
  lemma OidcLocationsUnique(tls: bool, spec: Found, routes: seq<Found>)
    ensures var s := StateOf(WholePass(tls, spec, routes));
            Unique(Rendered(s)) <==>
            && (forall v :: v in ByName(s.providers, {}) ==> OwnDistinct(v))
            && (s.njs.Some? ==> s.njs.value !in NJS_FIXED)
  {
    PassIsRun(tls, spec, routes);
    NoPathRenderedTwice(Events(tls, spec, routes));
    hide Events, WholePass, StateOf, Rendered, Unique, ByName, OwnDistinct;
  }

  // ---- the loop ----

  function AllFound(policies: map<string, Policy>, scopes: seq<Scope>): (r: seq<Found>)
    ensures |r| == |scopes| && forall i :: 0 <= i < |scopes| ==> r[i] == FoundIn(policies, scopes[i])
  {
    seq(|scopes|, i requires 0 <= i < |scopes| => FoundIn(policies, scopes[i]))
  }

  /** One route: its mark, its provider, and the NJS policy in use from here on. */
  method GenerateRoutePolicies(tls: bool, specHasNjs: bool, scope: Scope, policies: map<string, Policy>, server: Option<NjsConfig>,
                               registry: LocationRegistry)
    returns (njs: Option<NjsConfig>, provider: Option<Provider>, mark: Mark)
    modifies registry
    ensures var s := Pass(old(registry.owners), server, [], []);
            Pass(registry.owners, njs, Listed(provider), [mark]) == RouteStep(tls, specHasNjs, s, FoundIn(policies, scope))
  {
    hide Declared, OwnersAfter, IsDenied, LookupAll;
    ghost var s := Pass(registry.owners, server, [], []);
    var r := GeneratePolicies(Holder(scope.namespace, false), Context(false, tls, server), scope.refs, policies, registry);
    njs, provider, mark := server, None, Mark(r.Denied?, None, None);
    if r.Accepted? && r.config.njs.Some? {
      njs := r.config.njs;
      mark := mark.(njs := njs);
    } else if specHasNjs && (r.Denied? || r.config.provider.None?) {
      mark := mark.(njs := server);
    }
    if r.Accepted? && r.config.provider.Some? {
      provider := r.config.provider;
      mark := mark.(njs := None, provider := Some(provider.value.name));
    }
    assert [] + Listed(provider) == Listed(provider) && [] + [mark] == [mark];
  }

  /** The lists of a pass only grow. */
  lemma StepOnTop(tls: bool, specHasNjs: bool, s: Pass, ps: Found)
    ensures var t, u := RouteStep(tls, specHasNjs, s, ps), RouteStep(tls, specHasNjs, s.(providers := [], marks := []), ps);
            t == Pass(u.owners, u.server, s.providers + u.providers, s.marks + u.marks)
  {
    hide OwnNjs, OwnProvider, OwnersAfter, IsDenied;
  }

  method GenerateAllPolicies(tls: bool, spec: Scope, scopes: seq<Scope>, policies: map<string, Policy>)
    returns (server: Option<NjsConfig>, providers: seq<Provider>, marks: seq<Mark>)
    ensures var s := WholePass(tls, FoundIn(policies, spec), AllFound(policies, scopes));
            server == s.server && providers == s.providers && marks == s.marks
  {
    hide Declared, OwnersAfter, IsDenied, LookupAll, RouteStep;
    ghost var found := AllFound(policies, scopes);
    var registry := new LocationRegistry();
    server, providers, marks := None, [], [];
    var r := GeneratePolicies(Holder(spec.namespace, false), Context(true, tls, None), spec.refs, policies, registry);
    if r.Accepted? {
      server, providers := r.config.njs, Listed(r.config.provider);
    }
    var specHasNjs := server.Some?;
    ghost var start := SpecPass(tls, FoundIn(policies, spec));
    assert Pass(registry.owners, server, providers, marks) == start;
    assert found[..0] == [];
    var i := 0;
    while i < |scopes|
      invariant 0 <= i <= |scopes|
      invariant Pass(registry.owners, server, providers, marks) == Routes(tls, specHasNjs, start, found[..i])
    {
      hide SpecPass, AllFound, FoundIn, Routes;
      NextRoute(tls, specHasNjs, start, found, i);
      StepOnTop(tls, specHasNjs, Pass(registry.owners, server, providers, marks), found[i]);
      var njs, provider, mark := GenerateRoutePolicies(tls, specHasNjs, scopes[i], policies, server, registry);
      server, providers, marks := njs, providers + Listed(provider), marks + [mark];
      i := i + 1;
    }
    assert found[..i] == found;
  }

  lemma NextRoute(tls: bool, specHasNjs: bool, s: Pass, routes: seq<Found>, i: nat)
    requires i < |routes|
    ensures Routes(tls, specHasNjs, s, routes[..i + 1]) == RouteStep(tls, specHasNjs, Routes(tls, specHasNjs, s, routes[..i]), routes[i])
  {
    assert routes[..i + 1][..i] == routes[..i];
  }
}
