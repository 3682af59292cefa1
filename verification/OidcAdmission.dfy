/** Which OIDC policies are accepted: a policy is refused for a path that is somebody else's, never
    for one that is its own, so several contexts may name one policy. */
module OidcAdmission {
  import opened Text
  import opened OidcRegistry
  import opened MergeableOidc
  import opened Policies
  import opened VirtualServerPolicies

  // ---- what is refused ----

  /** The path has another provider or another role, and is not the post-logout page of both. */
  predicate Conflict(reg: Registry, provider: string, path: string, role: Role) {
    && path != "" && path in reg
    && (reg[path].provider != provider || reg[path].role != role)
    && !(role == PostLogout && reg[path].role == PostLogout)
  }

  function CallbackPath(p: NativePolicy): string {
    if |p.redirectUri| > 0 then p.redirectUri else "/oidc_callback_oidc_" + p.id
  }

  function ProxyPath(p: NativePolicy): string { "/_oidc_idp_oidc_" + p.id }

  lemma PolicyPaths(p: NativePolicy)
    ensures ProviderName(p) == "oidc_" + p.id && RedirectOf(p) == CallbackPath(p) && ProxyOf(p) == ProxyPath(p)
  {
    assert "/oidc_callback_" + ("oidc_" + p.id) == "/oidc_callback_oidc_" + p.id;
    assert "/_oidc_idp_" + ("oidc_" + p.id) == "/_oidc_idp_oidc_" + p.id;
  }

  /** A native policy is accepted if and only if none of its paths is in conflict. */
  lemma AdmittedExactly(reg: Registry, p: NativePolicy)
    ensures var v := "oidc_" + p.id;
            Admitted(reg, p) <==>
            !Conflict(reg, v, CallbackPath(p), Callback) && !Conflict(reg, v, p.postLogoutUri, PostLogout) && !Conflict(reg, v, ProxyPath(p), Proxy)
  {
    PolicyPaths(p);
    hide ProviderName, RedirectOf, ProxyOf, CallbackPath, ProxyPath;
    var cs := ClaimsOf(p);
    assert cs[0] in cs && cs[1] in cs && cs[2] in cs;
    assert forall c :: c in cs ==> c == cs[0] || c == cs[1] || c == cs[2];
  }

  /** The locations of the NJS module: the policy's callback and seven more. */
  predicate OfNjs(redirect: string, path: string) {
    || path == redirect
    || path == "/_jwks_uri" || path == "/_token" || path == "/_refresh" || path == "/_token_validation"
    || path == "/logout" || path == "/front_channel_logout" || path == "/_logout"
  }

  lemma NjsOwns(redirect: string, path: string)
    ensures var reg := NjsRegistered(map[], redirect);
            && (path in reg <==> OfNjs(redirect, path))
            && (path in reg ==> reg[path].provider == "njs" && reg[path].role != PostLogout)
  {
    var paths := NjsPaths(redirect);
    assert paths[0] == redirect && forall i :: 0 <= i < 7 ==> paths[i + 1] == NJS_FIXED[i];
    var f := NJS_FIXED;
    assert path in paths <==> path == redirect || path in f;
    assert path in f <==> path == f[0] || path == f[1] || path == f[2] || path == f[3] || path == f[4] || path == f[5] || path == f[6];
  }

  /** After the NJS policy, a native policy is accepted if and only if none of its paths is one of
      the NJS module's. */
  lemma NativeAfterNjs(redirect: string, p: NativePolicy)
    ensures Admitted(NjsRegistered(map[], redirect), p) <==>
            !OfNjs(redirect, CallbackPath(p)) && (p.postLogoutUri != "" ==> !OfNjs(redirect, p.postLogoutUri)) && !OfNjs(redirect, ProxyPath(p))
  {
    var reg := NjsRegistered(map[], redirect);
    AdmittedExactly(reg, p);
    NotNjs(p);
    assert CallbackPath(p) != "" && ProxyPath(p) != "";
    NjsOwns(redirect, CallbackPath(p));
    NjsOwns(redirect, p.postLogoutUri);
    NjsOwns(redirect, ProxyPath(p));
    hide CallbackPath, ProxyPath, Admitted, NjsRegistered, OfNjs;
  }

  lemma NotNjs(p: NativePolicy)
    ensures "oidc_" + p.id != "njs"
  {
    assert ("oidc_" + p.id)[0] == 'o';
  }

  /** An NJS policy is accepted if and only if none of its paths has another owner. */
  lemma NjsAdmittedExactly(reg: Registry, redirect: string)
    ensures NjsAdmitted(reg, redirect) <==>
            && (redirect in reg ==> reg[redirect] == Owner("njs", Callback))
            && forall path :: path in reg && path != redirect && path in NJS_FIXED ==> reg[path] == Owner("njs", Reserved)
  {
    hide NJS_FIXED;
    assert NjsPaths(redirect)[0] == redirect;
    assert forall path :: path in NJS_FIXED ==> path in NjsPaths(redirect);
  }

  /** Accepting it once more changes nothing. */
  lemma NjsAgain(reg: Registry, redirect: string)
    requires NjsAdmitted(reg, redirect)
    ensures var after := NjsRegistered(reg, redirect); NjsAdmitted(after, redirect) && NjsRegistered(after, redirect) == after
  {
    hide NJS_FIXED;
  }

  // ---- a policy that is named again ----

  ghost predicate OwnPaths(reg: Registry, p: NativePolicy) {
    forall c :: c in ClaimsOf(p) ==> Settled(reg, ProviderName(p), c)
  }

  lemma OwnPathsAdmitted(reg: Registry, p: NativePolicy)
    requires OwnPaths(reg, p)
    ensures Admitted(reg, p) && Registered(reg, p) == reg
  {
    hide ProviderName, RedirectOf, ProxyOf;
    var n, cs := ProviderName(p), ClaimsOf(p);
    assert cs[0] in cs && cs[1] in cs && cs[2] in cs;
    assert forall c :: c in cs ==> c == cs[0] || c == cs[1] || c == cs[2];
    assert Settled(reg, n, cs[0]) && Settled(reg, n, cs[1]) && Settled(reg, n, cs[2]);
  }

  lemma OwnPathsKept(a: Registry, b: Registry, p: NativePolicy)
    requires Keeps(a, b) && OwnPaths(a, p)
    ensures OwnPaths(b, p)
  {
    hide ClaimsOf;
    forall c | c in ClaimsOf(p)
      ensures Settled(b, ProviderName(p), c)
    {
      assert Settled(a, ProviderName(p), c);
    }
  }

  /** The paths of a policy differ from each other. */
  predicate PathsDiffer(p: NativePolicy) {
    CallbackPath(p) != ProxyPath(p) && p.postLogoutUri != CallbackPath(p) && p.postLogoutUri != ProxyPath(p)
  }

  lemma PathsDifferExactly(p: NativePolicy, kept: bool)
    ensures DistinctClaims(Native(p, kept)) <==> PathsDiffer(p)
  {
    PolicyPaths(p);
    assert CallbackPath(p) != "" && ProxyPath(p) != "";
  }

  lemma SecondRefused(reg: Registry, later: Registry, p: NativePolicy)
    requires Admitted(reg, p) && !DistinctClaims(Native(p, true)) && Keeps(Registered(reg, p), later)
    ensures !Admitted(later, p)
  {
    PolicyPaths(p);
    assert CallbackPath(p) != "" && ProxyPath(p) != "";
    hide ProviderName, RedirectOf, ProxyOf, CallbackPath, ProxyPath;
    var n, cs := ProviderName(p), ClaimsOf(p);
    assert cs[0] in cs && cs[1] in cs && cs[2] in cs;
  }

  /** However the registry grows after it has accepted a policy, it accepts the policy again if and
      only if the policy's own paths differ from each other; and then nothing changes. */
  lemma AcceptedAgain(reg: Registry, later: Registry, p: NativePolicy)
    requires Admitted(reg, p) && Keeps(Registered(reg, p), later)
    ensures Admitted(later, p) <==> PathsDiffer(p)
    ensures PathsDiffer(p) ==> Registered(later, p) == later
  {
    hide Admitted, Registered, PathsDiffer, DistinctClaims;
    PathsDifferExactly(p, true);
    if PathsDiffer(p) {
      NewClaimsSettled(reg, p, true);
      OwnPathsKept(Registered(reg, p), later, p);
      OwnPathsAdmitted(later, p);
    } else {
      SecondRefused(reg, later, p);
    }
  }

  /** So it is over every run. */
  lemma AcceptedAgainInRun(rs: seq<Registration>, i: nat, j: nat)
    requires i < j <= |rs| && rs[i].Native? && Admitted(Run(rs[..i]).owners, rs[i].policy)
    ensures Admitted(Run(rs[..j]).owners, rs[i].policy) <==> PathsDiffer(rs[i].policy)
  {
    hide Admitted, Registered, PathsDiffer;
    assert rs[..i + 1][..i] == rs[..i] && rs[..j][..i + 1] == rs[..i + 1];
    assert Run(rs[..i + 1]).owners == Registered(Run(rs[..i]).owners, rs[i].policy);
    OwnersNeverChangeInRun(rs[..j], i + 1);
    AcceptedAgain(Run(rs[..i]).owners, Run(rs[..j]).owners, rs[i].policy);
  }

  // ---- several contexts of a VirtualServer ----

  lemma ContextKeeps(c: Context, reg: Registry, ps: Found)
    ensures Keeps(reg, OwnersAfter(c, reg, ps))
  {
    hide FailsAt;
    var f := FirstOidc(ps);
    if Reaches(c, reg, ps, f) {
      match ps[f].value
      case NativeOidc(native, _) => OwnersNeverChange(State(reg, [], None), Native(native, true));
      case NjsOidc(config, _, _) => OwnersNeverChange(State(reg, [], None), Njs(config.redirect, true));
    }
  }

  lemma {:induction false} RoutesKeep(tls: bool, specHasNjs: bool, s: Pass, routes: seq<Found>, i: nat)
    requires i <= |routes|
    ensures Keeps(Routes(tls, specHasNjs, s, routes[..i]).owners, Routes(tls, specHasNjs, s, routes).owners)
  {
    if i == |routes| {
      assert routes[..i] == routes;
    } else {
      var init := routes[..|routes| - 1];
      assert init[..i] == routes[..i];
      RoutesKeep(tls, specHasNjs, s, init, i);
      var t := Routes(tls, specHasNjs, s, init);
      ContextKeeps(Context(false, tls, t.server), t.owners, routes[|routes| - 1]);
      hide OwnersAfter, OwnNjs, OwnProvider, IsDenied;
    }
  }

  /** The context's OIDC policy is this one, and its secrets are in order. */
  predicate Asks(ps: Found, p: NativePolicy) {
    var f := FirstOidc(ps);
    f < |ps| && ps[f].value == NativeOidc(p, true)
  }

  /** Nothing but the OIDC policy could make the context answer 500. */
  ghost predicate OtherwiseFine(c: Context, reg: Registry, ps: Found) {
    && (forall k :: 0 <= k < |ps| && k != FirstOidc(ps) ==> !FailsAt(c, reg, ps, k))
    && !ConflictingTiers(Zones(ps))
  }

  lemma AcceptedRegisters(c: Context, reg: Registry, ps: Found, p: NativePolicy)
    requires Asks(ps, p) && !IsDenied(c, reg, ps)
    ensures Admitted(reg, p) && OwnersAfter(c, reg, ps) == Registered(reg, p)
  {
    hide Admitted, Registered, FailsAt, Zones, ConflictingTiers;
    FirstOidcDecides(c, reg, ps);
  }

  lemma AdmittedDecides(c: Context, reg: Registry, ps: Found, p: NativePolicy)
    requires Asks(ps, p) && OtherwiseFine(c, reg, ps)
    ensures IsDenied(c, reg, ps) <==> !Admitted(reg, p)
    ensures Admitted(reg, p) ==> OwnProvider(c, reg, ps).Some? && OwnProvider(c, reg, ps).value.name == "oidc_" + p.id
  {
    hide Admitted, FailsAt, Zones, ConflictingTiers;
    FirstOidcDecides(c, reg, ps);
  }

  /** What a route's mark says about it. */
  lemma MarkAt(tls: bool, spec: Found, routes: seq<Found>, i: nat)
    requires i < |routes|
    ensures var s, marks := Before(tls, spec, routes, i), WholePass(tls, spec, routes).marks;
            var c := Context(false, tls, s.server);
            && i < |marks|
            && (marks[i].denied <==> IsDenied(c, s.owners, routes[i]))
            && (OwnProvider(c, s.owners, routes[i]).Some? ==> marks[i].provider == Some(OwnProvider(c, s.owners, routes[i]).value.name))
  {
    var s0 := SpecPass(tls, spec);
    SpecUnmarked(tls, spec);
    hide SpecPass, IsDenied, OwnProvider, OwnNjs, OwnersAfter;
    MarkStays(tls, s0.server.Some?, s0, routes, i);
  }

  lemma OwnersAfterRoute(tls: bool, spec: Found, routes: seq<Found>, i: nat, j: nat)
    requires i < j <= |routes|
    ensures var s := Before(tls, spec, routes, i);
            Keeps(OwnersAfter(Context(false, tls, s.server), s.owners, routes[i]), Before(tls, spec, routes, j).owners)
  {
    hide SpecPass, IsDenied, OwnProvider, OwnNjs, OwnersAfter, Keeps;
    var s0 := SpecPass(tls, spec);
    NextRoute(tls, s0.server.Some?, s0, routes, i);
    assert routes[..j][..i + 1] == routes[..i + 1];
    RoutesKeep(tls, s0.server.Some?, s0, routes[..j], i + 1);
  }

  /** A policy that one route has is kept in every later route that asks for it, and is otherwise
      fine, if and only if the policy's own paths differ from each other. */
  lemma KeptInEachRoute(tls: bool, spec: Found, routes: seq<Found>, i: nat, j: nat, p: NativePolicy)
    requires i < j < |routes| && Asks(routes[i], p) && Asks(routes[j], p)
    requires var s := Before(tls, spec, routes, j); OtherwiseFine(Context(false, tls, s.server), s.owners, routes[j])
    requires var marks := WholePass(tls, spec, routes).marks; i < |marks| && !marks[i].denied
    ensures var marks := WholePass(tls, spec, routes).marks;
            && j < |marks|
            && (!marks[j].denied <==> PathsDiffer(p))
            && (!marks[j].denied ==> marks[j].provider == Some("oidc_" + p.id))
  {
    hide WholePass, Before, IsDenied, OwnersAfter, Admitted, Registered, PathsDiffer, Asks, OtherwiseFine, OwnProvider, Keeps;
    var s, t := Before(tls, spec, routes, i), Before(tls, spec, routes, j);
    var c, d := Context(false, tls, s.server), Context(false, tls, t.server);
    MarkAt(tls, spec, routes, i);
    MarkAt(tls, spec, routes, j);
    AcceptedRegisters(c, s.owners, routes[i], p);
    OwnersAfterRoute(tls, spec, routes, i, j);
    AcceptedAgain(s.owners, t.owners, p);
    AdmittedDecides(d, t.owners, routes[j], p);
  }

  /** So is a policy that the spec has. */
  lemma KeptFromSpec(tls: bool, spec: Found, routes: seq<Found>, j: nat, p: NativePolicy)
    requires j < |routes| && Asks(spec, p) && Asks(routes[j], p) && !IsDenied(Context(true, tls, None), map[], spec)
    requires var s := Before(tls, spec, routes, j); OtherwiseFine(Context(false, tls, s.server), s.owners, routes[j])
    ensures var marks := WholePass(tls, spec, routes).marks;
            && j < |marks|
            && (!marks[j].denied <==> PathsDiffer(p))
            && (!marks[j].denied ==> marks[j].provider == Some("oidc_" + p.id))
  {
    var t, c := Before(tls, spec, routes, j), Context(true, tls, None);
    SpecOwners(tls, spec, routes, j);
    hide WholePass, Before, IsDenied, OwnersAfter, Admitted, Registered, PathsDiffer, Asks, OtherwiseFine, OwnProvider, Keeps;
    MarkAt(tls, spec, routes, j);
    AcceptedRegisters(c, map[], spec, p);
    AcceptedAgain(map[], t.owners, p);
    AdmittedDecides(Context(false, tls, t.server), t.owners, routes[j], p);
  }

  lemma SpecOwners(tls: bool, spec: Found, routes: seq<Found>, j: nat)
    requires j <= |routes|
    ensures Keeps(OwnersAfter(Context(true, tls, None), map[], spec), Before(tls, spec, routes, j).owners)
  {
    hide IsDenied, OwnProvider, OwnNjs, OwnersAfter, Keeps;
    var s0 := SpecPass(tls, spec);
    RoutesKeep(tls, s0.server.Some?, s0, routes[..j], 0);
    assert routes[..j][..0] == [];
    assert Routes(tls, s0.server.Some?, s0, []) == s0;
  }

  // ---- several minions ----

  /** The registry just before a member. */
  function RegistryAt(ms: seq<Member>, i: nat): Registry
    requires i <= |ms|
  {
    if i == 0 then map[] else After(RegistryAt(ms, i - 1), ms[i - 1])
  }

  lemma {:induction false} RegistryKeeps(ms: seq<Member>, i: nat, j: nat)
    requires i <= j <= |ms|
    ensures Keeps(RegistryAt(ms, i), RegistryAt(ms, j))
  {
    if i < j {
      RegistryKeeps(ms, i, j - 1);
      var m := ms[j - 1];
      if m.policy.Some? {
        OwnersNeverChange(State(RegistryAt(ms, j - 1), [], None), Native(m.policy.value, true));
      }
      hide Registered, Admitted;
    }
  }

  /** A policy that one member has accepted is accepted for every later member that names it, if and
      only if its own paths differ from each other. */
  lemma AcceptedForEachMinion(ms: seq<Member>, i: nat, j: nat, p: NativePolicy)
    requires i < j < |ms| && ms[i].policy == ms[j].policy == Some(p) && Admitted(RegistryAt(ms, i), p)
    ensures Admitted(RegistryAt(ms, j), p) <==> PathsDiffer(p)
  {
    hide Registered, Admitted, PathsDiffer, Keeps;
    RegistryKeeps(ms, i + 1, j);
    AcceptedAgain(RegistryAt(ms, i), RegistryAt(ms, j), p);
  }

  lemma {:induction false} PartAt(ms: seq<Member>, i: nat, n: nat)
    requires i <= n < |ms|
    ensures forall v :: v in ProvidersOf(RegistryAt(ms, n), ms[n]) ==> v in Flatten(Parts(RegistryAt(ms, i), ms[i..]))
    decreases n - i
  {
    hide ProvidersOf, After;
    var parts := Parts(RegistryAt(ms, i), ms[i..]);
    assert ms[i..][0] == ms[i] && ms[i..][1..] == ms[i + 1..];
    var rest := Parts(RegistryAt(ms, i + 1), ms[i + 1..]);
    assert parts == [ProvidersOf(RegistryAt(ms, i), ms[i])] + rest && parts[1..] == rest;
    if i < n {
      PartAt(ms, i + 1, n);
    }
  }

  /** Every member that is kept, has a valid host and whose policy is accepted is rendered: one
      provider has the policy's name. */
  lemma {:induction false} MemberIsRendered(ms: seq<Member>, n: nat, p: NativePolicy)
    requires n < |ms| && ms[n].policy == Some(p) && ms[n].kept && ms[n].hosts > 0 && Admitted(RegistryAt(ms, n), p)
    ensures exists v :: v in Merged(ms) && v.name == "oidc_" + p.id
  {
    var own, all := ProviderOf(RegistryAt(ms, n), p), Flatten(Parts(map[], ms));
    hide Admitted, ProviderOf, Parts, Flatten, Deduplicated, EachDeduplicated;
    CopiesHas(own, ms[n].hosts);
    PartAt(ms, 0, n);
    assert own in ProvidersOf(RegistryAt(ms, n), ms[n]) && RegistryAt(ms, 0) == map[];
    assert ms[0..] == ms;
    var v := ByNameCovers(all, {}, own);
    CollectedHold(ms);
    DeduplicatedInManyParts(Parts(map[], ms));
    SecondPassIdle(all, {}, {});
    NameOf(RegistryAt(ms, n), p);
  }

  lemma NameOf(reg: Registry, p: NativePolicy)
    ensures ProviderOf(reg, p).name == "oidc_" + p.id
  {
  }

  lemma CopiesHas(v: Provider, n: nat)
    requires n > 0
    ensures v in Copies(v, n)
  {
  }
}
