/** The registry of the exact-match locations that OIDC policies generate. One registry is
    shared by the spec, the routes and the subroutes of a VirtualServer, and by a master
    Ingress and its minions; native and NJS policies register in it side by side. */
module OidcRegistry {
  import opened Text

  datatype Role = Callback | Proxy | PostLogout | Reserved

  datatype Owner = Owner(provider: string, role: Role)

  type Registry = map<string, Owner>

  /** The owner name of every location of the NJS module. */
  const NJS_OWNER := "njs"

  /** The locations the NJS module renders whatever the policy says. */
  const NJS_FIXED: seq<string> := [
    "/_jwks_uri", "/_token", "/_refresh", "/_token_validation", "/logout", "/front_channel_logout", "/_logout"]

  /** A native policy; `id` is the snake-cased identity that its generated names end with. */
  datatype NativePolicy = NativePolicy(id: string, redirectUri: string, postLogoutUri: string)

  datatype Provider = Provider(
    name: string,
    redirectUri: string,
    postLogoutUri: string,
    proxy: string,
    postLogoutLocation: Option<string>)

  function ProviderName(p: NativePolicy): string { "oidc_" + p.id }

  function RedirectOf(p: NativePolicy): string {
    if p.redirectUri == "" then "/oidc_callback_" + ProviderName(p) else p.redirectUri
  }

  function ProxyOf(p: NativePolicy): string { "/_oidc_idp_" + ProviderName(p) }

  // ---- registering a native policy ----

  datatype Claim = Claim(path: string, role: Role)

  function Claims(redirect: string, postLogout: string, proxy: string): seq<Claim> {
    [Claim(redirect, Callback), Claim(postLogout, PostLogout), Claim(proxy, Proxy)]
  }

  function ClaimsOf(p: NativePolicy): seq<Claim> { Claims(RedirectOf(p), p.postLogoutUri, ProxyOf(p)) }

  function ClaimsBy(v: Provider): seq<Claim> { Claims(v.redirectUri, v.postLogoutUri, v.proxy) }

  predicate Taken(reg: Registry, name: string, c: Claim) {
    c.path != "" && c.path in reg && reg[c.path] != Owner(name, c.role)
  }

  /** A post-logout page says the same for every provider, so one may serve several. */
  predicate Shares(reg: Registry, name: string, c: Claim) {
    Taken(reg, name, c) && c.role.PostLogout? && reg[c.path].role.PostLogout?
  }

  predicate Admitted(reg: Registry, p: NativePolicy) {
    forall c :: c in ClaimsOf(p) && Taken(reg, ProviderName(p), c) ==> Shares(reg, ProviderName(p), c)
  }

  /** The registry with a claim entered, unless it is empty or shared. */
  function Enter(reg: Registry, before: Registry, name: string, c: Claim): Registry {
    if c.path == "" || Shares(before, name, c) then reg else reg[c.path := Owner(name, c.role)]
  }

  function Registered(reg: Registry, p: NativePolicy): Registry {
    var n, cs := ProviderName(p), ClaimsOf(p);
    Enter(Enter(Enter(reg, reg, n, cs[0]), reg, n, cs[1]), reg, n, cs[2])
  }

  function ProviderOf(reg: Registry, p: NativePolicy): Provider {
    var c := Claim(p.postLogoutUri, PostLogout);
    Provider(ProviderName(p), RedirectOf(p), p.postLogoutUri, ProxyOf(p),
             if c.path == "" || Shares(reg, ProviderName(p), c) then None else Some(c.path))
  }

  // ---- registering an NJS policy ----

  function NjsPaths(redirect: string): seq<string> { [redirect] + NJS_FIXED }

  function NjsOwner(redirect: string, path: string): Owner {
    Owner(NJS_OWNER, if path == redirect then Callback else Reserved)
  }

  predicate NjsAdmitted(reg: Registry, redirect: string) {
    forall path :: path in NjsPaths(redirect) && path in reg ==> reg[path] == NjsOwner(redirect, path)
  }

  function NjsRegistered(reg: Registry, redirect: string): Registry {
    reg + map path | path in NjsPaths(redirect) :: NjsOwner(redirect, path)
  }

  class LocationRegistry {
    var owners: Registry

    constructor ()
      ensures owners == map[]
    {
      owners := map[];
    }

    /** Checks every claim before entering any. */
    method RegisterNative(p: NativePolicy) returns (r: Option<Provider>)
      modifies this
      ensures r.Some? <==> Admitted(old(owners), p)
      ensures r.Some? ==> r.value == ProviderOf(old(owners), p) && owners == Registered(old(owners), p)
      ensures r.None? ==> owners == old(owners)
    {
      var name, claims := ProviderName(p), ClaimsOf(p);
      var location := if p.postLogoutUri != "" then Some(p.postLogoutUri) else None;
      var i := 0;
      while i < |claims|
        invariant 0 <= i <= |claims|
        invariant owners == old(owners)
        invariant forall k :: 0 <= k < i && Taken(owners, name, claims[k]) ==> Shares(owners, name, claims[k])
        invariant location == if p.postLogoutUri == "" || (i > 1 && Shares(owners, name, claims[1])) then None else Some(p.postLogoutUri)
      {
        var c := claims[i];
        if c.path != "" && c.path in owners && owners[c.path] != Owner(name, c.role) {
          if c.role.PostLogout? && owners[c.path].role.PostLogout? {
            location := None;
          } else {
            assert Taken(owners, name, c) && !Shares(owners, name, c);
            return None;
          }
        }
        i := i + 1;
      }
      ghost var before := owners;
      assert forall c :: c in claims ==> c == claims[0] || c == claims[1] || c == claims[2];
      i := 0;
      while i < |claims|
        invariant 0 <= i <= |claims|
        invariant owners == (
          if i == 0 then before
          else if i == 1 then Enter(before, before, name, claims[0])
          else if i == 2 then Enter(Enter(before, before, name, claims[0]), before, name, claims[1])
          else Registered(before, p))
      {
        var c := claims[i];
        if c.path != "" && !(c.role.PostLogout? && location.None?) {
          owners := owners[c.path := Owner(name, c.role)];
        }
        i := i + 1;
      }
      r := Some(Provider(name, RedirectOf(p), p.postLogoutUri, ProxyOf(p), location));
    }

    method RegisterNjs(redirect: string) returns (ok: bool)
      modifies this
      ensures ok <==> NjsAdmitted(old(owners), redirect)
      ensures owners == if ok then NjsRegistered(old(owners), redirect) else old(owners)
    {
      hide NjsPaths;
      ok := RegisterReserved(NjsPaths(redirect), redirect);
    }

    method RegisterReserved(paths: seq<string>, redirect: string) returns (ok: bool)
      modifies this
      ensures ok <==> forall path :: path in paths && path in old(owners) ==> old(owners)[path] == NjsOwner(redirect, path)
      ensures owners == if ok then old(owners) + map path | path in paths :: NjsOwner(redirect, path) else old(owners)
    {
      hide NjsOwner;
      var i := 0;
      while i < |paths|
        invariant 0 <= i <= |paths|
        invariant forall k :: 0 <= k < i && paths[k] in owners ==> owners[paths[k]] == NjsOwner(redirect, paths[k])
      {
        var path := paths[i];
        if path in owners && owners[path] != NjsOwner(redirect, path) {
          return false;
        }
        i := i + 1;
      }
      ghost var before := owners;
      i := 0;
      while i < |paths|
        invariant 0 <= i <= |paths|
        invariant owners == before + map path | path in paths[..i] :: NjsOwner(redirect, path)
      {
        OneMorePath(before, paths, i, redirect);
        owners := owners[paths[i] := NjsOwner(redirect, paths[i])];
        i := i + 1;
      }
      assert paths[..i] == paths;
      ok := true;
    }
  }

  lemma OneMorePath(reg: Registry, paths: seq<string>, i: nat, redirect: string)
    requires i < |paths|
    ensures reg + (map path | path in paths[..i + 1] :: NjsOwner(redirect, path)) ==
            (reg + map path | path in paths[..i] :: NjsOwner(redirect, path))[paths[i] := NjsOwner(redirect, paths[i])]
  {
    hide NjsOwner;
    assert paths[..i + 1] == paths[..i] + [paths[i]];
  }

  // ---- rendering ----

  /** The providers that reach the template: the first of each name, with a post-logout
      location only if no earlier one has the same. */
  function Deduplicated(ps: seq<Provider>, names: set<string>, paths: set<string>): seq<Provider> {
    if |ps| == 0 then []
    else if ps[0].name in names then Deduplicated(ps[1..], names, paths)
    else [Cleared(ps[0], paths)] + Deduplicated(ps[1..], names + {ps[0].name}, paths + Location(ps[0]))
  }

  function Location(v: Provider): set<string> {
    if v.postLogoutLocation.Some? then {v.postLogoutLocation.value} else {}
  }

  function Cleared(v: Provider, paths: set<string>): Provider {
    if v.postLogoutLocation.Some? && v.postLogoutLocation.value in paths then v.(postLogoutLocation := None) else v
  }

  method RemoveDuplicateProviders(ps: seq<Provider>) returns (r: seq<Provider>)
    ensures r == Deduplicated(ps, {}, {})
  {
    var names: set<string>, paths: set<string> := {}, {};
    r := [];
    var i := 0;
    while i < |ps|
      invariant 0 <= i <= |ps|
      invariant r + Deduplicated(ps[i..], names, paths) == Deduplicated(ps, {}, {})
    {
      var v := ps[i];
      NextProvider(ps, i, names, paths);
      hide Deduplicated;
      if v.name !in names {
        ghost var rest := Deduplicated(ps[i + 1..], names + {v.name}, paths + Location(v));
        assert r + ([Cleared(v, paths)] + rest) == (r + [Cleared(v, paths)]) + rest;
        ghost var paths' := paths + Location(v);
        names := names + {v.name};
        if v.postLogoutLocation.Some? {
          if v.postLogoutLocation.value in paths {
            v := v.(postLogoutLocation := None);
          } else {
            paths := paths + {v.postLogoutLocation.value};
          }
        }
        assert paths == paths';
        r := r + [v];
      }
      i := i + 1;
    }
  }

  lemma NextProvider(ps: seq<Provider>, i: nat, names: set<string>, paths: set<string>)
    requires i < |ps|
    ensures Deduplicated(ps[i..], names, paths) ==
            if ps[i].name in names then Deduplicated(ps[i + 1..], names, paths)
            else [Cleared(ps[i], paths)] + Deduplicated(ps[i + 1..], names + {ps[i].name}, paths + Location(ps[i]))
  {
    assert ps[i..][0] == ps[i] && ps[i..][1..] == ps[i + 1..];
  }

  function Paths(v: Provider): seq<string> {
    [v.redirectUri] + (if v.postLogoutLocation.Some? then [v.postLogoutLocation.value] else []) + [v.proxy]
  }

  function AllPaths(ps: seq<Provider>): seq<string> {
    if |ps| == 0 then [] else Paths(ps[0]) + AllPaths(ps[1..])
  }

  // ---- runs ----

  /** One policy reference that reaches its registration. `kept` says whether its context
      survives the rest of its policies: a context that fails drops what it has built but
      not what it has registered. */
  datatype Registration =
    | Native(policy: NativePolicy, kept: bool)
    | Njs(redirect: string, kept: bool)

  datatype State = State(owners: Registry, providers: seq<Provider>, njs: Option<string>)

  const INITIAL := State(map[], [], None)

  function Step(s: State, r: Registration): State {
    match r
    case Native(p, kept) =>
      if !Admitted(s.owners, p) then s
      else State(Registered(s.owners, p), if kept then s.providers + [ProviderOf(s.owners, p)] else s.providers, s.njs)
    case Njs(redirect, kept) =>
      if s.njs.Some? || !NjsAdmitted(s.owners, redirect) then s
      else State(NjsRegistered(s.owners, redirect), s.providers, if kept then Some(redirect) else None)
  }

  function Run(rs: seq<Registration>): State {
    if |rs| == 0 then INITIAL else Step(Run(rs[..|rs| - 1]), rs[|rs| - 1])
  }

  /** Every generated OIDC location of the rendered server. */
  function Rendered(s: State): seq<string> {
    AllPaths(Deduplicated(s.providers, {}, {})) + if s.njs.Some? then NjsPaths(s.njs.value) else []
  }

  predicate Keeps(a: Registry, b: Registry) {
    forall path :: path in a ==> path in b && b[path] == a[path]
  }

  /** An owner, once set, never changes, whatever the policies' own paths are. */
  lemma OwnersNeverChange(s: State, r: Registration)
    ensures Keeps(s.owners, Step(s, r).owners)
  {
    if r.Native? && Admitted(s.owners, r.policy) {
      var n, cs := ProviderName(r.policy), ClaimsOf(r.policy);
      assert cs[0] in cs && cs[1] in cs && cs[2] in cs;
    }
  }

  lemma {:induction false} OwnersNeverChangeInRun(rs: seq<Registration>, k: nat)
    requires k <= |rs|
    ensures Keeps(Run(rs[..k]).owners, Run(rs).owners)
    decreases |rs| - k
  {
    if k == |rs| {
      assert rs[..k] == rs;
    } else {
      assert rs[..k + 1][..k] == rs[..k] && rs[..k + 1][k] == rs[k];
      OwnersNeverChange(Run(rs[..k]), rs[k]);
      OwnersNeverChangeInRun(rs, k + 1);
    }
  }

  // ---- what a run keeps ----

  predicate Held(reg: Registry, name: string, path: string) {
    path in reg && reg[path].provider == name
  }

  ghost predicate Holds(reg: Registry, v: Provider) {
    && |v.name| >= 5 && v.name[..5] == "oidc_"
    && (forall path :: path in Paths(v) ==> Held(reg, v.name, path))
    && (v.postLogoutLocation.Some? ==> v.postLogoutLocation.value == v.postLogoutUri != "")
    && (v.postLogoutUri != "" ==>
          v.postLogoutUri in reg && (v.postLogoutLocation.Some? <==> reg[v.postLogoutUri].provider == v.name))
  }

  /** Every accepted policy holds the paths it renders. */
  ghost predicate Valid(s: State) {
    && (forall v :: v in s.providers ==> Holds(s.owners, v))
    && (s.njs.Some? ==> forall path :: path in NjsPaths(s.njs.value) ==> Held(s.owners, NJS_OWNER, path))
  }

  lemma HoldsKept(a: Registry, b: Registry, v: Provider)
    requires Keeps(a, b) && Holds(a, v)
    ensures Holds(b, v)
  {
    hide Paths;
    assert forall path :: path in Paths(v) ==> Held(a, v.name, path) && path in b;
  }

  lemma NewProviderHolds(reg: Registry, p: NativePolicy)
    requires Admitted(reg, p)
    ensures Holds(Registered(reg, p), ProviderOf(reg, p))
  {
    var n, cs := ProviderName(p), ClaimsOf(p);
    assert cs[0] in cs && cs[1] in cs && cs[2] in cs;
    assert n[..5] == "oidc_";
  }

  lemma StepValid(s: State, r: Registration)
    requires Valid(s)
    ensures Valid(Step(s, r))
  {
    var t := Step(s, r);
    OwnersNeverChange(s, r);
    hide Registered, ProviderOf, NjsPaths, Admitted, NjsAdmitted;
    forall v | v in t.providers
      ensures Holds(t.owners, v)
    {
      if v in s.providers {
        HoldsKept(s.owners, t.owners, v);
      } else {
        NewProviderHolds(s.owners, r.policy);
      }
    }
    if t.njs.Some? {
      assert forall path :: path in NjsPaths(t.njs.value) ==> Held(t.owners, NJS_OWNER, path);
    }
  }

  lemma {:induction false} RunValid(rs: seq<Registration>)
    ensures Valid(Run(rs))
  {
    if |rs| > 0 {
      RunValid(rs[..|rs| - 1]);
      StepValid(Run(rs[..|rs| - 1]), rs[|rs| - 1]);
    }
  }

  // ---- no path is rendered twice ----

  /** The first provider of each name. */
  function ByName(ps: seq<Provider>, names: set<string>): (r: seq<Provider>)
    ensures forall v :: v in r ==> v in ps && v.name !in names
  {
    if |ps| == 0 then []
    else if ps[0].name in names then ByName(ps[1..], names)
    else [ps[0]] + ByName(ps[1..], names + {ps[0].name})
  }

  predicate OneClaimant(ps: seq<Provider>) {
    forall v, w :: v in ps && w in ps && v.postLogoutLocation.Some? && v.postLogoutLocation == w.postLogoutLocation ==> v.name == w.name
  }

  /** The second pass over post-logout locations finds nothing to remove when no two
      providers have the same one. */
  lemma {:induction false} SecondPassIdle(ps: seq<Provider>, names: set<string>, paths: set<string>)
    requires OneClaimant(ps)
    requires forall v :: v in ps && v.name !in names && v.postLogoutLocation.Some? ==> v.postLogoutLocation.value !in paths
    ensures Deduplicated(ps, names, paths) == ByName(ps, names)
  {
    if |ps| > 0 {
      var v := ps[0];
      assert forall w :: w in ps[1..] ==> w in ps;
      if v.name in names {
        SecondPassIdle(ps[1..], names, paths);
      } else {
        SecondPassIdle(ps[1..], names + {v.name}, paths + Location(v));
      }
    }
  }

  lemma ValidClaimants(s: State)
    requires Valid(s)
    ensures OneClaimant(s.providers)
    ensures Deduplicated(s.providers, {}, {}) == ByName(s.providers, {})
  {
    forall v, w | v in s.providers && w in s.providers && v.postLogoutLocation.Some? && v.postLogoutLocation == w.postLogoutLocation
      ensures v.name == w.name
    {
      assert Holds(s.owners, v) && Holds(s.owners, w);
    }
    SecondPassIdle(s.providers, {}, {});
  }

  /** A policy's own generated paths differ from each other. */
  predicate OwnDistinct(v: Provider) {
    v.redirectUri != v.proxy && (v.postLogoutUri != "" ==> v.postLogoutUri != v.redirectUri && v.postLogoutUri != v.proxy)
  }

  lemma {:induction false} AllPathsMember(ps: seq<Provider>, path: string)
    ensures path in AllPaths(ps) <==> exists v :: v in ps && path in Paths(v)
  {
    hide Paths;
    if |ps| > 0 {
      AllPathsMember(ps[1..], path);
    }
  }

  /** Paths of providers with different names differ, so a repetition can only come from
      within one provider. */
  lemma {:induction false} AllPathsUnique(reg: Registry, ps: seq<Provider>, names: set<string>)
    requires forall v :: v in ps ==> Holds(reg, v)
    ensures Unique(AllPaths(ByName(ps, names))) <==> forall v :: v in ByName(ps, names) ==> Unique(Paths(v))
  {
    if |ps| > 0 {
      var v := ps[0];
      if v.name in names {
        AllPathsUnique(reg, ps[1..], names);
      } else {
        var rest := ByName(ps[1..], names + {v.name});
        AllPathsUnique(reg, ps[1..], names + {v.name});
        hide Paths;
        assert ByName(ps, names) == [v] + rest && AllPaths([v] + rest) == Paths(v) + AllPaths(rest);
        forall path | path in Paths(v)
          ensures path !in AllPaths(rest)
        {
          AllPathsMember(rest, path);
          assert Held(reg, v.name, path);
          assert forall w :: w in rest && path in Paths(w) ==> Held(reg, w.name, path);
        }
        if Unique(Paths(v) + AllPaths(rest)) {
          UniqueParts(Paths(v), AllPaths(rest));
        }
        if Unique(Paths(v)) && Unique(AllPaths(rest)) {
          UniqueConcat(Paths(v), AllPaths(rest));
        }
      }
    }
  }

  lemma OwnPathsUnique(reg: Registry, v: Provider)
    requires Holds(reg, v)
    ensures Unique(Paths(v)) <==> OwnDistinct(v)
  {
    var ps := Paths(v);
    assert v.redirectUri == ps[0] && v.proxy == ps[|ps| - 1];
    assert Held(reg, v.name, v.redirectUri) && Held(reg, v.name, v.proxy);
    assert v.postLogoutLocation.Some? ==> ps[1] == v.postLogoutUri;
  }

  lemma FixedUnique()
    ensures Unique(NJS_FIXED)
  {
    var f := NJS_FIXED;
    assert |f[0]| == 10 && |f[1]| == 7 && |f[2]| == 9 && |f[3]| == 18 && |f[4]| == 7 && |f[5]| == 21 && |f[6]| == 8;
    assert f[1][1] != f[4][1];
  }

  lemma NjsPathsUnique(redirect: string)
    ensures Unique(NjsPaths(redirect)) <==> redirect !in NJS_FIXED
  {
    FixedUnique();
    hide NJS_FIXED;
    if redirect !in NJS_FIXED {
      UniqueConcat([redirect], NJS_FIXED);
    } else {
      assert redirect in [redirect];
      if Unique([redirect] + NJS_FIXED) {
        UniqueParts([redirect], NJS_FIXED);
      }
    }
  }

  lemma RenderedUnique(s: State)
    requires Valid(s)
    ensures Unique(Rendered(s)) <==>
            && (forall v :: v in ByName(s.providers, {}) ==> OwnDistinct(v))
            && (s.njs.Some? ==> s.njs.value !in NJS_FIXED)
  {
    var ps := ByName(s.providers, {});
    var a, b := AllPaths(ps), if s.njs.Some? then NjsPaths(s.njs.value) else [];
    ValidClaimants(s);
    AllPathsUnique(s.owners, s.providers, {});
    forall v | v in ps
      ensures Unique(Paths(v)) <==> OwnDistinct(v)
    {
      OwnPathsUnique(s.owners, v);
    }
    if s.njs.Some? {
      NjsPathsUnique(s.njs.value);
    }
    hide Paths, NjsPaths, Unique, OwnDistinct;
    forall path | path in a
      ensures path !in b
    {
      AllPathsMember(ps, path);
      var v :| v in ps && path in Paths(v);
      assert Held(s.owners, v.name, path) && v.name[0] == 'o' && NJS_OWNER[0] == 'n';
    }
    if Unique(a + b) {
      UniqueParts(a, b);
    }
    if Unique(a) && Unique(b) {
      UniqueConcat(a, b);
    }
    assert s.njs.None? ==> Unique(b) by {
      UniqueEmpty<string>();
    }
  }

  /** Over every run, no two rendered OIDC locations have the same path exactly when each
      rendered policy's own paths are distinct: two policies never collide. */
  lemma NoPathRenderedTwice(rs: seq<Registration>)
    ensures var s := Run(rs);
            Unique(Rendered(s)) <==>
            && (forall v :: v in ByName(s.providers, {}) ==> OwnDistinct(v))
            && (s.njs.Some? ==> s.njs.value !in NJS_FIXED)
  {
    RunValid(rs);
    RenderedUnique(Run(rs));
  }

  /** The condition can fail: a callback path equal to the policy's own proxy path is
      accepted and rendered twice. */
  lemma OwnPathsCanCollide()
    ensures var p := NativePolicy("x", "/_oidc_idp_oidc_x", "");
            !Unique(Rendered(Run([Native(p, true)])))
  {
    var p := NativePolicy("x", "/_oidc_idp_oidc_x", "");
    var rs := [Native(p, true)];
    assert rs[..0] == [] && Run([]) == INITIAL;
    var v := ProviderOf(map[], p);
    assert Run(rs).providers == [v];
    assert ByName([v], {}) == [v];
    assert v in [v] && !OwnDistinct(v);
    NoPathRenderedTwice(rs);
  }

  // ---- sharing ----

  predicate DistinctClaims(r: Registration) {
    r.Native? ==>
      var cs := ClaimsOf(r.policy);
      cs[0].path != cs[2].path && (cs[1].path != "" ==> cs[1].path != cs[0].path && cs[1].path != cs[2].path)
  }

  /** A claim is its provider's own, or a post-logout page of another native provider. */
  predicate Settled(reg: Registry, name: string, c: Claim) {
    c.path != "" ==>
      && c.path in reg
      && (reg[c.path] == Owner(name, c.role) || (c.role.PostLogout? && reg[c.path].role.PostLogout?))
  }

  ghost predicate AllSettled(s: State) {
    forall v, c :: v in s.providers && c in ClaimsBy(v) ==> Settled(s.owners, v.name, c)
  }

  lemma NewClaimsSettled(reg: Registry, p: NativePolicy, kept: bool)
    requires Admitted(reg, p) && DistinctClaims(Native(p, kept))
    ensures forall c :: c in ClaimsOf(p) ==> Settled(Registered(reg, p), ProviderName(p), c)
  {
    hide ProviderName, RedirectOf, ProxyOf;
    var n, cs := ProviderName(p), ClaimsOf(p);
    assert cs[0] in cs && cs[1] in cs && cs[2] in cs;
    assert forall c :: c in cs ==> c == cs[0] || c == cs[1] || c == cs[2];
  }

  lemma {:induction false} RunSettled(rs: seq<Registration>)
    requires forall r :: r in rs ==> DistinctClaims(r)
    ensures AllSettled(Run(rs))
  {
    if |rs| > 0 {
      var s, r := Run(rs[..|rs| - 1]), rs[|rs| - 1];
      RunSettled(rs[..|rs| - 1]);
      OwnersNeverChange(s, r);
      if r.Native? && Admitted(s.owners, r.policy) {
        NewClaimsSettled(s.owners, r.policy, r.kept);
        assert ClaimsBy(ProviderOf(s.owners, r.policy)) == ClaimsOf(r.policy);
      }
      hide ClaimsBy, Registered, NjsRegistered, Admitted, NjsAdmitted;
      assert forall v, c :: v in s.providers && c in ClaimsBy(v) ==> Settled(s.owners, v.name, c);
    }
  }

  /** When every policy's own paths are distinct, two accepted policies name the same path
      only as the post-logout page of two native providers. */
  lemma OnlyPostLogoutShared(rs: seq<Registration>, v: Provider, w: Provider, c: Claim, d: Claim)
    requires forall r :: r in rs ==> DistinctClaims(r)
    requires v in Run(rs).providers && w in Run(rs).providers && v.name != w.name
    requires c in ClaimsBy(v) && d in ClaimsBy(w) && c.path == d.path != ""
    ensures c.role.PostLogout? && d.role.PostLogout?
  {
    RunSettled(rs);
    hide Run, ClaimsBy;
    assert Settled(Run(rs).owners, v.name, c) && Settled(Run(rs).owners, w.name, d);
  }

  ghost predicate PostLogoutIsNative(reg: Registry) {
    forall path :: path in reg && reg[path].role.PostLogout? ==> reg[path].provider != NJS_OWNER
  }

  lemma {:induction false} RunPostLogoutIsNative(rs: seq<Registration>)
    ensures PostLogoutIsNative(Run(rs).owners)
  {
    if |rs| > 0 {
      RunPostLogoutIsNative(rs[..|rs| - 1]);
      var r := rs[|rs| - 1];
      if r.Native? {
        assert ProviderName(r.policy)[0] == 'o' && NJS_OWNER[0] == 'n';
      }
      hide NjsPaths, ProviderName;
    }
  }

  lemma NjsPathsNeverShared(rs: seq<Registration>, v: Provider, c: Claim)
    requires forall r :: r in rs ==> DistinctClaims(r)
    requires Run(rs).njs.Some? && v in Run(rs).providers && c in ClaimsBy(v) && c.path != ""
    ensures c.path !in NjsPaths(Run(rs).njs.value)
  {
    var s := Run(rs);
    RunSettled(rs);
    RunValid(rs);
    RunPostLogoutIsNative(rs);
    hide Run, ClaimsBy, NjsPaths, Paths, DistinctClaims;
    assert Settled(s.owners, v.name, c) && Holds(s.owners, v);
    NativeIsNotNjs(v);
    NjsElsewhere(s, c.path);
  }

  lemma NativeIsNotNjs(v: Provider)
    requires |v.name| >= 5 && v.name[..5] == "oidc_"
    ensures v.name != NJS_OWNER
  {
  }

  // ---- the post-logout page ----

  /** One identity, one policy. */
  predicate Consistent(rs: seq<Registration>) {
    forall i, j :: 0 <= i < |rs| && 0 <= j < |rs| && rs[i].Native? && rs[j].Native? && rs[i].policy.id == rs[j].policy.id ==>
      rs[i].policy == rs[j].policy
  }

  lemma {:induction false} ProviderOrigin(rs: seq<Registration>, v: Provider) returns (i: nat)
    requires v in Run(rs).providers
    ensures i < |rs| && rs[i].Native? && v.name == ProviderName(rs[i].policy) && v.postLogoutUri == rs[i].policy.postLogoutUri
    decreases |rs|
  {
    var s := Run(rs[..|rs| - 1]);
    if v in s.providers {
      i := ProviderOrigin(rs[..|rs| - 1], v);
    } else {
      i := |rs| - 1;
    }
  }

  lemma {:induction false} OwnerOrigin(rs: seq<Registration>, path: string) returns (i: nat)
    requires path in Run(rs).owners && Run(rs).owners[path].role.PostLogout?
    ensures i < |rs| && rs[i].Native? && ProviderName(rs[i].policy) == Run(rs).owners[path].provider && rs[i].policy.postLogoutUri == path
    decreases |rs|
  {
    var s := Run(rs[..|rs| - 1]);
    OwnersNeverChange(s, rs[|rs| - 1]);
    hide NjsPaths, ProviderName, RedirectOf, ProxyOf;
    if path in s.owners {
      i := OwnerOrigin(rs[..|rs| - 1], path);
    } else {
      i := |rs| - 1;
    }
  }

  lemma {:induction false} ByNameCovers(ps: seq<Provider>, names: set<string>, v: Provider) returns (w: Provider)
    requires v in ps && v.name !in names
    ensures w in ByName(ps, names) && w.name == v.name
  {
    if ps[0].name == v.name {
      w := ps[0];
    } else {
      w := ByNameCovers(ps[1..], if ps[0].name in names then names else names + {ps[0].name}, v);
    }
  }

  lemma PostLogoutOwner(rs: seq<Registration>, v: Provider)
    requires forall r :: r in rs ==> DistinctClaims(r)
    requires v in Run(rs).providers && v.postLogoutUri != ""
    ensures var reg := Run(rs).owners;
            v.postLogoutUri in reg && reg[v.postLogoutUri].role.PostLogout? && reg[v.postLogoutUri].provider != NJS_OWNER
  {
    RunSettled(rs);
    RunPostLogoutIsNative(rs);
    hide Run, DistinctClaims;
    assert ClaimsBy(v)[1] == Claim(v.postLogoutUri, PostLogout) && ClaimsBy(v)[1] in ClaimsBy(v);
    assert Settled(Run(rs).owners, v.name, Claim(v.postLogoutUri, PostLogout));
  }

  /** If a provider named as the owner of a post-logout path is kept, the path is rendered. */
  lemma OwnerServes(rs: seq<Registration>, x: string, w: Provider)
    requires Consistent(rs)
    requires var s := Run(rs);
             && x != "" && x in s.owners && s.owners[x].role.PostLogout?
             && w in s.providers && w.name == s.owners[x].provider
    ensures x in AllPaths(ByName(Run(rs).providers, {}))
  {
    var s := Run(rs);
    RunValid(rs);
    var u := ByNameCovers(s.providers, {}, w);
    var i := ProviderOrigin(rs, u);
    var j := OwnerOrigin(rs, x);
    assert rs[i].policy.id == ProviderName(rs[i].policy)[5..] && rs[j].policy.id == ProviderName(rs[j].policy)[5..];
    hide Run, ByName, ProviderName;
    assert u.postLogoutUri == x && Holds(s.owners, u);
    assert Paths(u)[1] == x;
    AllPathsMember(ByName(s.providers, {}), x);
  }

  /** A native policy's post-logout page is served exactly when the provider that registered
      the path is itself rendered: not when that provider's context failed afterwards. */
  lemma PostLogoutServed(rs: seq<Registration>, v: Provider)
    requires Consistent(rs) && forall r :: r in rs ==> DistinctClaims(r)
    requires v in Run(rs).providers && v.postLogoutUri != ""
    ensures var s := Run(rs);
            && v.postLogoutUri in s.owners
            && (v.postLogoutUri in Rendered(s) <==> exists w :: w in s.providers && w.name == s.owners[v.postLogoutUri].provider)
  {
    var s, x := Run(rs), v.postLogoutUri;
    RunValid(rs);
    PostLogoutOwner(rs, v);
    hide Run, Consistent, DistinctClaims, Paths;
    ValidClaimants(s);
    NjsElsewhere(s, x);
    var ps := ByName(s.providers, {});
    AllPathsMember(ps, x);
    if w :| w in s.providers && w.name == s.owners[x].provider {
      OwnerServes(rs, x, w);
    }
    if x in AllPaths(ps) {
      var u :| u in ps && x in Paths(u);
      assert Holds(s.owners, u) && Held(s.owners, u.name, x);
    }
  }

  lemma NjsElsewhere(s: State, x: string)
    requires Valid(s) && x in s.owners && s.owners[x].provider != NJS_OWNER
    ensures s.njs.Some? ==> x !in NjsPaths(s.njs.value)
  {
    hide NjsPaths;
    if s.njs.Some? {
      assert forall path :: path in NjsPaths(s.njs.value) ==> Held(s.owners, NJS_OWNER, path);
    }
  }

  /** It can indeed be lost: whenever `b` asks for a page that `a` has registered and the
      context of `a` failed, `b` is accepted and nobody serves the page. */
  lemma PostLogoutPageLost(a: NativePolicy, b: NativePolicy)
    requires ProviderName(a) != ProviderName(b) && a.postLogoutUri == b.postLogoutUri != ""
    requires DistinctClaims(Native(a, false)) && DistinctClaims(Native(b, true))
    requires RedirectOf(b) != RedirectOf(a) && RedirectOf(b) != ProxyOf(a) && ProxyOf(b) != RedirectOf(a) && ProxyOf(b) != ProxyOf(a)
    ensures var s := Run([Native(a, false), Native(b, true)]);
            |s.providers| == 1 && s.providers[0].name == ProviderName(b) && b.postLogoutUri !in Rendered(s)
  {
    var rs := [Native(a, false), Native(b, true)];
    assert rs[..1] == [rs[0]] && rs[..1][..0] == [];
    assert Run(rs[..1][..0]) == INITIAL && Run(rs[..1]) == Step(INITIAL, rs[0]) && Run(rs) == Step(Run(rs[..1]), rs[1]);
    RunValid(rs);
    var t := Run(rs);
    hide ProviderName, RedirectOf, ProxyOf, Run, Valid, Rendered;
    SharedClaim(a, b);
    assert t.providers == [ProviderOf(Registered(map[], a), b)] && t.njs.None?;
    assert ByName(t.providers, {}) == t.providers;
    ValidClaimants(t);
    AllPathsMember(t.providers, b.postLogoutUri);
    assert Rendered(t) == AllPaths(t.providers) + [] by { NothingFromNjs(t); }
  }

  lemma NothingFromNjs(s: State)
    requires s.njs.None?
    ensures Rendered(s) == AllPaths(Deduplicated(s.providers, {}, {})) + []
  {
  }

  lemma SharedClaim(a: NativePolicy, b: NativePolicy)
    requires ProviderName(a) != ProviderName(b) && a.postLogoutUri == b.postLogoutUri != ""
    requires DistinctClaims(Native(a, false)) && DistinctClaims(Native(b, true))
    requires RedirectOf(b) != RedirectOf(a) && RedirectOf(b) != ProxyOf(a) && ProxyOf(b) != RedirectOf(a) && ProxyOf(b) != ProxyOf(a)
    ensures var reg := Registered(map[], a);
            && Admitted(map[], a) && Admitted(reg, b)
            && b.postLogoutUri !in Paths(ProviderOf(reg, b))
  {
    hide ProviderName, RedirectOf, ProxyOf;
  }

  // ---- removing duplicates in parts ----

  lemma {:induction false} ByNameConcat(a: seq<Provider>, b: seq<Provider>, names: set<string>)
    ensures ByName(a + b, names) == ByName(a, names) + ByName(b, names + Names(a))
  {
    if |a| == 0 {
      assert a + b == b && names + Names(a) == names;
    } else {
      var v := a[0];
      assert (a + b)[0] == v && (a + b)[1..] == a[1..] + b;
      var seen := if v.name in names then names else names + {v.name};
      NamesSplit(a);
      assert names + Names(a) == seen + Names(a[1..]) by { hide Names, ByName; }
      hide Names;
      ByNameConcat(a[1..], b, seen);
    }
  }

  function Names(ps: seq<Provider>): set<string> { set v | v in ps :: v.name }

  lemma NamesSplit(ps: seq<Provider>)
    requires |ps| > 0
    ensures Names(ps) == {ps[0].name} + Names(ps[1..])
  {
    assert ps == [ps[0]] + ps[1..];
  }

  lemma {:induction false} ByNameTwice(ps: seq<Provider>, inner: set<string>, outer: set<string>)
    requires inner <= outer
    ensures ByName(ByName(ps, inner), outer) == ByName(ps, outer)
  {
    if |ps| > 0 {
      var v := ps[0];
      if v.name in inner {
        ByNameTwice(ps[1..], inner, outer);
      } else {
        ByNameTwice(ps[1..], inner + {v.name}, outer + {v.name});
        assert v.name in outer ==> outer + {v.name} == outer;
        assert ByName(ps, inner)[1..] == ByName(ps[1..], inner + {v.name});
      }
    }
  }

  lemma {:induction false} ByNameNames(ps: seq<Provider>, names: set<string>)
    ensures Names(ByName(ps, names)) + names == Names(ps) + names
  {
    if |ps| > 0 {
      NamesSplit(ps);
      if ps[0].name in names {
        ByNameNames(ps[1..], names);
      } else {
        ByNameNames(ps[1..], names + {ps[0].name});
        NamesSplit(ByName(ps, names));
        assert ByName(ps, names)[1..] == ByName(ps[1..], names + {ps[0].name});
        assert Names(ByName(ps, names)) + names == Names(ps) + names;
      }
    }
  }
}
