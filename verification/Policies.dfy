/** The policies of one context (the spec, a route, a subroute or an Ingress): a fold over
    policy references that fills one record and fails closed. */
module Policies {
  import opened Text
  import opened Nginx
  import opened OidcRegistry
  import opened RateLimitTiers

  /** The parts of the record that hold at most one policy. */
  datatype Slot = Jwt | ExternalAuth | BasicAuth | IngressMtls | EgressMtls | ApiKey | Waf | Wallarm | Cache | Hsts

  /** What a policy's secrets, bundles and addresses resolve to; `Unset` is a policy that
      leaves its slot empty. */
  datatype Resolution = Unusable | Unset | Usable(value: string)

  datatype NjsConfig = NjsConfig(key: string, redirect: string)

  datatype Policy =
    | AccessControl(allow: seq<string>, deny: seq<string>)
    | RateLimit(zone: Zone, request: string, options: string)
    | Single(slot: Slot, resolution: Resolution, behindProxy: bool)
    | NjsOidc(config: NjsConfig, secretOk: bool, certificateOk: bool)
    | NativeOidc(native: NativePolicy, secretsOk: bool)
    | Cors(headers: seq<string>, originMap: Option<Map>)
    | Other

  datatype Reference = Reference(namespace: string, name: string)

  /** The resource that lists the references. */
  datatype Holder = Holder(namespace: string, ingress: bool)

  /** Where the policies are applied. `njs` is the NJS policy already in use. */
  datatype Context = Context(spec: bool, tls: bool, njs: Option<NjsConfig>)

  datatype Config = Config(
    allow: seq<string>,
    deny: seq<string>,
    zones: seq<Zone>,
    requests: seq<string>,
    options: Option<string>,
    slots: map<Slot, string>,
    njs: Option<NjsConfig>,
    provider: Option<Provider>,
    corsHeaders: seq<string>,
    corsMap: Option<Map>)

  const EMPTY := Config([], [], [], [], None, map[], None, None, [], None)

  /** A failing context answers 500 and carries nothing else. */
  datatype Outcome = Denied | Accepted(config: Config, groupMaps: seq<Map>)

  // ---- looking a reference up ----

  predicate SupportedOnIngress(p: Policy) {
    match p
    case AccessControl(_, _) => true
    case Cors(_, _) => true
    case NativeOidc(_, _) => true
    case Single(slot, _, _) => slot in {ExternalAuth, IngressMtls, EgressMtls, Waf}
    case _ => false
  }

  function KeyOf(h: Holder, r: Reference): string {
    (if r.namespace == "" then h.namespace else r.namespace) + "/" + r.name
  }

  /** None when the policy is missing or not for this kind of owner. */
  function Lookup(h: Holder, policies: map<string, Policy>, r: Reference): Option<Policy> {
    var key := KeyOf(h, r);
    if key !in policies || (h.ingress && !SupportedOnIngress(policies[key])) then None else Some(policies[key])
  }

  function LookupAll(h: Holder, policies: map<string, Policy>, refs: seq<Reference>): seq<Option<Policy>> {
    seq(|refs|, i requires 0 <= i < |refs| => Lookup(h, policies, refs[i]))
  }

  // ---- what the references say, position by position ----

  type Found = seq<Option<Policy>>

  function Fills(p: Option<Policy>, slot: Slot): Option<string> {
    if p.Some? && p.value.Single? && p.value.slot == slot && p.value.resolution.Usable? then Some(p.value.resolution.value) else None
  }

  /** The value of the first policy that fills the slot. */
  function First(ps: Found, slot: Slot): Option<string> {
    if |ps| == 0 then None else if Fills(ps[0], slot).Some? then Fills(ps[0], slot) else First(ps[1..], slot)
  }

  predicate IsOidc(p: Option<Policy>) { p.Some? && (p.value.NjsOidc? || p.value.NativeOidc?) }

  /** The position of the first OIDC policy, or the length. */
  function FirstOidc(ps: Found): (i: nat)
    ensures i <= |ps| && (forall k :: 0 <= k < i ==> !IsOidc(ps[k])) && (i < |ps| ==> IsOidc(ps[i]))
  {
    if |ps| == 0 || IsOidc(ps[0]) then 0 else 1 + FirstOidc(ps[1..])
  }

  function Allows(ps: Found): seq<string> {
    if |ps| == 0 then [] else (if ps[0].Some? && ps[0].value.AccessControl? then ps[0].value.allow else []) + Allows(ps[1..])
  }

  function Denies(ps: Found): seq<string> {
    if |ps| == 0 then [] else (if ps[0].Some? && ps[0].value.AccessControl? then ps[0].value.deny else []) + Denies(ps[1..])
  }

  function RateLimits(ps: Found): (r: seq<Policy>)
    ensures forall p :: p in r ==> p.RateLimit?
  {
    if |ps| == 0 then [] else (if ps[0].Some? && ps[0].value.RateLimit? then [ps[0].value] else []) + RateLimits(ps[1..])
  }

  function LastHeaders(ps: Found): seq<string> {
    if |ps| == 0 then []
    else
      var last := ps[|ps| - 1];
      if last.Some? && last.value.Cors? then last.value.headers else LastHeaders(ps[..|ps| - 1])
  }

  /** The last origin map: a later CORS policy without one does not clear it. */
  function LastOriginMap(ps: Found): Option<Map> {
    if |ps| == 0 then None
    else
      var last := ps[|ps| - 1];
      if last.Some? && last.value.Cors? && last.value.originMap.Some? then last.value.originMap else LastOriginMap(ps[..|ps| - 1])
  }

  function Zones(ps: Found): seq<Zone> {
    var ls := RateLimits(ps);
    seq(|ls|, i requires 0 <= i < |ls| => assert ls[i] in ls; ls[i].zone)
  }

  function Requests(ps: Found): seq<string> {
    var ls := RateLimits(ps);
    seq(|ls|, i requires 0 <= i < |ls| => assert ls[i] in ls; ls[i].request)
  }

  function OptionsOf(ps: Found): Option<string> {
    var ls := RateLimits(ps);
    if |ls| == 0 then None else assert ls[0] in ls; Some(ls[0].options)
  }

  function SlotsOf(ps: Found): map<Slot, string> {
    map s: Slot | First(ps, s).Some? :: First(ps, s).value
  }

  /** The record that the references declare, slot by slot. */
  function Declared(c: Context, reg: Registry, ps: Found): Config {
    var f := FirstOidc(ps);
    Config(
      Allows(ps), Denies(ps), Zones(ps), Requests(ps), OptionsOf(ps),
      SlotsOf(ps),
      if f < |ps| && ps[f].value.NjsOidc? then Some(if c.njs.Some? then c.njs.value else ps[f].value.config) else None,
      if f < |ps| && ps[f].value.NativeOidc? then Some(ProviderOf(reg, ps[f].value.native)) else None,
      LastHeaders(ps), LastOriginMap(ps))
  }

  predicate Misplaced(c: Context, p: Policy)
    requires p.Single?
  {
    (p.slot.IngressMtls? && (!c.spec || !c.tls)) || (p.slot.Hsts? && (!c.spec || (!c.tls && !p.behindProxy)))
  }

  /** The first OIDC policy of a context is refused. */
  predicate OidcFails(c: Context, reg: Registry, p: Policy)
    requires IsOidc(Some(p))
  {
    match p
    case NjsOidc(config, secretOk, certificateOk) =>
      if c.njs.Some? then c.njs.value.key != config.key
      else !secretOk || !NjsAdmitted(reg, config.redirect) || !certificateOk
    case NativeOidc(native, secretsOk) => !secretsOk || !Admitted(reg, native)
  }

  /** Whether reference `i` fails, in terms of the references before it. */
  predicate FailsAt(c: Context, reg: Registry, ps: Found, i: nat)
    requires i < |ps|
  {
    match ps[i]
    case None => true
    case Some(p) =>
      match p
      case Single(slot, resolution, _) =>
        Misplaced(c, p) || (if First(ps[..i], slot).Some? then slot.ApiKey? else resolution.Unusable?)
      case NjsOidc(_, _, _) =>
        var f := FirstOidc(ps[..i]);
        if f < i then ps[f].value.NativeOidc? else OidcFails(c, reg, p)
      case NativeOidc(_, _) =>
        var f := FirstOidc(ps[..i]);
        if f < i then ps[f].value.NjsOidc? else OidcFails(c, reg, p)
      case _ => false
  }

  ghost predicate SomeFails(c: Context, reg: Registry, ps: Found) {
    exists i :: 0 <= i < |ps| && FailsAt(c, reg, ps, i)
  }

  ghost predicate ConflictingTiers(zones: seq<Zone>) {
    exists v :: v in Variables(zones) && Conflicting(Tiers(zones, v))
  }

  /** A context answers 500 exactly when some reference fails or its tiers conflict. */
  ghost predicate IsDenied(c: Context, reg: Registry, ps: Found) {
    SomeFails(c, reg, ps) || ConflictingTiers(Zones(ps))
  }

  /** What refusing or accepting an OIDC policy leaves in the registry. */
  function AfterOidc(c: Context, reg: Registry, p: Policy): Registry
    requires IsOidc(Some(p))
  {
    match p
    case NjsOidc(config, secretOk, _) =>
      if c.njs.None? && secretOk && NjsAdmitted(reg, config.redirect) then NjsRegistered(reg, config.redirect) else reg
    case NativeOidc(native, secretsOk) => if secretsOk && Admitted(reg, native) then Registered(reg, native) else reg
  }

  ghost predicate Reaches(c: Context, reg: Registry, ps: Found, i: nat) {
    i < |ps| && forall k :: 0 <= k < i ==> !FailsAt(c, reg, ps, k)
  }

  ghost function OwnersAfter(c: Context, reg: Registry, ps: Found): Registry {
    var f := FirstOidc(ps);
    if Reaches(c, reg, ps, f) then AfterOidc(c, reg, ps[f].value) else reg
  }

  // ---- one more reference ----

  lemma {:induction false} FirstAppend(ps: Found, p: Option<Policy>, slot: Slot)
    ensures First(ps + [p], slot) == if First(ps, slot).Some? then First(ps, slot) else Fills(p, slot)
  {
    hide Fills;
    if |ps| == 0 {
      assert ps + [p] == [p] && [p][1..] == [];
      assert First([p][1..], slot) == None;
    } else {
      assert (ps + [p])[0] == ps[0] && (ps + [p])[1..] == ps[1..] + [p];
      FirstAppend(ps[1..], p, slot);
    }
  }

  lemma {:induction false} AllowsAppend(ps: Found, p: Option<Policy>)
    ensures Allows(ps + [p]) == Allows(ps) + if p.Some? && p.value.AccessControl? then p.value.allow else []
  {
    if |ps| == 0 {
      assert ps + [p] == [p] && [p][1..] == [];
      assert Allows([p][1..]) == [];
    } else {
      assert (ps + [p])[0] == ps[0] && (ps + [p])[1..] == ps[1..] + [p];
      AllowsAppend(ps[1..], p);
    }
  }

  lemma {:induction false} DeniesAppend(ps: Found, p: Option<Policy>)
    ensures Denies(ps + [p]) == Denies(ps) + if p.Some? && p.value.AccessControl? then p.value.deny else []
  {
    if |ps| == 0 {
      assert ps + [p] == [p] && [p][1..] == [];
      assert Denies([p][1..]) == [];
    } else {
      assert (ps + [p])[0] == ps[0] && (ps + [p])[1..] == ps[1..] + [p];
      DeniesAppend(ps[1..], p);
    }
  }

  lemma {:induction false} RateLimitsAppend(ps: Found, p: Option<Policy>)
    ensures RateLimits(ps + [p]) == RateLimits(ps) + if p.Some? && p.value.RateLimit? then [p.value] else []
  {
    if |ps| == 0 {
      assert ps + [p] == [p] && [p][1..] == [];
      assert RateLimits([p][1..]) == [];
    } else {
      assert (ps + [p])[0] == ps[0] && (ps + [p])[1..] == ps[1..] + [p];
      RateLimitsAppend(ps[1..], p);
    }
  }

  lemma LastAppend(ps: Found, p: Option<Policy>)
    ensures LastHeaders(ps + [p]) == if p.Some? && p.value.Cors? then p.value.headers else LastHeaders(ps)
    ensures LastOriginMap(ps + [p]) == if p.Some? && p.value.Cors? && p.value.originMap.Some? then p.value.originMap else LastOriginMap(ps)
  {
    assert (ps + [p])[..|ps|] == ps;
  }

  lemma LimitsAppend(ps: Found, p: Option<Policy>)
    ensures p.Some? && p.value.RateLimit? ==>
              && Zones(ps + [p]) == Zones(ps) + [p.value.zone]
              && Requests(ps + [p]) == Requests(ps) + [p.value.request]
              && OptionsOf(ps + [p]) == if |Requests(ps)| == 0 then Some(p.value.options) else OptionsOf(ps)
    ensures !(p.Some? && p.value.RateLimit?) ==>
              Zones(ps + [p]) == Zones(ps) && Requests(ps + [p]) == Requests(ps) && OptionsOf(ps + [p]) == OptionsOf(ps)
  {
    RateLimitsAppend(ps, p);
    hide RateLimits;
    if p.Some? && p.value.RateLimit? {
      var ls := RateLimits(ps);
      assert forall i :: 0 <= i < |ls| ==> (ls + [p.value])[i] == ls[i];
    } else {
      assert RateLimits(ps) + [] == RateLimits(ps);
    }
  }

  lemma FirstOidcAppend(ps: Found, p: Option<Policy>)
    ensures FirstOidc(ps + [p]) == if FirstOidc(ps) < |ps| then FirstOidc(ps) else if IsOidc(p) then |ps| else |ps| + 1
  {
    var f, g := FirstOidc(ps), FirstOidc(ps + [p]);
    assert forall k :: 0 <= k < |ps| ==> (ps + [p])[k] == ps[k];
    assert (ps + [p])[|ps|] == p;
    hide FirstOidc, IsOidc;
  }

  /** The record after one more reference, from the record before it. */
  function Extended(c: Context, reg: Registry, cfg: Config, p: Policy): Config {
    match p
    case AccessControl(allow, deny) => cfg.(allow := cfg.allow + allow, deny := cfg.deny + deny)
    case RateLimit(zone, request, options) =>
      cfg.(zones := cfg.zones + [zone], requests := cfg.requests + [request],
           options := if |cfg.requests| == 0 then Some(options) else cfg.options)
    case Single(slot, resolution, _) =>
      if slot in cfg.slots || !resolution.Usable? then cfg else cfg.(slots := cfg.slots[slot := resolution.value])
    case NjsOidc(config, _, _) =>
      if cfg.njs.Some? || cfg.provider.Some? then cfg else cfg.(njs := Some(if c.njs.Some? then c.njs.value else config))
    case NativeOidc(native, _) =>
      if cfg.njs.Some? || cfg.provider.Some? then cfg else cfg.(provider := Some(ProviderOf(reg, native)))
    case Cors(headers, originMap) =>
      cfg.(corsHeaders := headers, corsMap := if originMap.Some? then originMap else cfg.corsMap)
    case Other => cfg
  }

  lemma SlotsAppend(ps: Found, p: Option<Policy>)
    ensures SlotsOf(ps + [p]) ==
            if p.Some? && p.value.Single? && p.value.resolution.Usable? && p.value.slot !in SlotsOf(ps)
            then SlotsOf(ps)[p.value.slot := p.value.resolution.value] else SlotsOf(ps)
  {
    forall s
      ensures First(ps + [p], s) == if First(ps, s).Some? then First(ps, s) else Fills(p, s)
    {
      FirstAppend(ps, p, s);
    }
    hide First;
  }

  lemma DeclaredAppend(c: Context, reg: Registry, ps: Found, p: Policy)
    ensures Declared(c, reg, ps + [Some(p)]) == Extended(c, reg, Declared(c, reg, ps), p)
  {
    AllowsAppend(ps, Some(p));
    DeniesAppend(ps, Some(p));
    LimitsAppend(ps, Some(p));
    SlotsAppend(ps, Some(p));
    LastAppend(ps, Some(p));
    FirstOidcAppend(ps, Some(p));
    hide Allows, Denies, Zones, Requests, OptionsOf, SlotsOf, LastHeaders, LastOriginMap, FirstOidc, ProviderOf;
    assert Allows(ps) + [] == Allows(ps) && Denies(ps) + [] == Denies(ps);
  }

  /** Failing, in terms of the record built so far. */
  predicate StepFails(c: Context, reg: Registry, cfg: Config, p: Policy) {
    match p
    case Single(slot, resolution, _) => Misplaced(c, p) || (if slot in cfg.slots then slot.ApiKey? else resolution.Unusable?)
    case NjsOidc(_, _, _) => cfg.njs.None? && (cfg.provider.Some? || OidcFails(c, reg, p))
    case NativeOidc(_, _) => cfg.provider.None? && (cfg.njs.Some? || OidcFails(c, reg, p))
    case _ => false
  }

  function StepOwners(c: Context, reg: Registry, cfg: Config, p: Policy): Registry {
    if IsOidc(Some(p)) && cfg.njs.None? && cfg.provider.None? then AfterOidc(c, reg, p) else reg
  }

  lemma FailsIsStepFails(c: Context, reg: Registry, ps: Found, i: nat)
    requires i < |ps| && ps[i].Some?
    ensures FailsAt(c, reg, ps, i) <==> StepFails(c, reg, Declared(c, reg, ps[..i]), ps[i].value)
  {
    hide OidcFails, Misplaced, Allows, Denies, Zones, Requests, OptionsOf, LastHeaders, LastOriginMap, ProviderOf;
    var pre := ps[..i];
    assert forall k :: 0 <= k < i ==> pre[k] == ps[k];
    var f := FirstOidc(pre);
    assert ps[i].value.Single? ==> (ps[i].value.slot in SlotsOf(pre) <==> First(pre, ps[i].value.slot).Some?);
  }

  /** Whether a reference fails depends only on the references up to it. */
  lemma FailsInPrefix(c: Context, reg: Registry, ps: Found, i: nat, n: nat)
    requires i < n <= |ps|
    ensures FailsAt(c, reg, ps[..n], i) <==> FailsAt(c, reg, ps, i)
  {
    assert ps[..n][..i] == ps[..i] && ps[..n][i] == ps[i];
    var f := FirstOidc(ps[..i]);
    assert f < i ==> ps[..n][f] == ps[f];
    hide OidcFails, Misplaced, First, FirstOidc;
  }

  /** The record under construction and the registry it shares with other contexts. */
  class Builder {
    var cfg: Config
    const registry: LocationRegistry

    constructor (registry: LocationRegistry)
      ensures cfg == EMPTY && this.registry == registry
    {
      cfg := EMPTY;
      this.registry := registry;
    }

    method AddSingle(c: Context, slot: Slot, resolution: Resolution, behindProxy: bool) returns (failed: bool)
      modifies this
      ensures failed <==> StepFails(c, registry.owners, old(cfg), Single(slot, resolution, behindProxy))
      ensures !failed ==> cfg == Extended(c, registry.owners, old(cfg), Single(slot, resolution, behindProxy))
    {
      if slot == IngressMtls && (!c.spec || !c.tls) {
        return true;
      }
      if slot == Hsts && (!c.spec || (!c.tls && !behindProxy)) {
        return true;
      }
      if slot in cfg.slots {
        return slot == ApiKey;
      }
      failed := resolution.Unusable?;
      if resolution.Usable? {
        cfg := cfg.(slots := cfg.slots[slot := resolution.value]);
      }
    }

    method AddNjs(c: Context, config: NjsConfig, secretOk: bool, certificateOk: bool) returns (failed: bool)
      modifies this, registry
      ensures var p := NjsOidc(config, secretOk, certificateOk);
              && (failed <==> StepFails(c, old(registry.owners), old(cfg), p))
              && (!failed ==> cfg == Extended(c, old(registry.owners), old(cfg), p))
              && registry.owners == StepOwners(c, old(registry.owners), old(cfg), p)
    {
      hide NjsAdmitted, NjsRegistered;
      if cfg.njs.Some? {
        return false;
      }
      if cfg.provider.Some? {
        return true;
      }
      if c.njs.Some? {
        if c.njs.value.key != config.key {
          return true;
        }
        cfg := cfg.(njs := c.njs);
        return false;
      }
      if !secretOk {
        return true;
      }
      var ok := registry.RegisterNjs(config.redirect);
      if !ok || !certificateOk {
        return true;
      }
      cfg := cfg.(njs := Some(config));
      failed := false;
    }

    method AddNative(c: Context, native: NativePolicy, secretsOk: bool) returns (failed: bool)
      modifies this, registry
      ensures var p := NativeOidc(native, secretsOk);
              && (failed <==> StepFails(c, old(registry.owners), old(cfg), p))
              && (!failed ==> cfg == Extended(c, old(registry.owners), old(cfg), p))
              && registry.owners == StepOwners(c, old(registry.owners), old(cfg), p)
    {
      hide Admitted, Registered, ProviderOf;
      if cfg.provider.Some? {
        return false;
      }
      if cfg.njs.Some? || !secretsOk {
        return true;
      }
      var provider := registry.RegisterNative(native);
      if provider.None? {
        return true;
      }
      cfg := cfg.(provider := provider);
      failed := false;
    }

    method Add(c: Context, p: Policy) returns (failed: bool)
      modifies this, registry
      ensures failed <==> StepFails(c, old(registry.owners), old(cfg), p)
      ensures !failed ==> cfg == Extended(c, old(registry.owners), old(cfg), p)
      ensures registry.owners == StepOwners(c, old(registry.owners), old(cfg), p)
    {
      failed := false;
      match p
      case AccessControl(allow, deny) =>
        cfg := cfg.(allow := cfg.allow + allow, deny := cfg.deny + deny);
      case RateLimit(zone, request, options) =>
        cfg := cfg.(zones := cfg.zones + [zone], requests := cfg.requests + [request]);
        if |cfg.requests| == 1 {
          cfg := cfg.(options := Some(options));
        }
      case Single(slot, resolution, behindProxy) =>
        failed := AddSingle(c, slot, resolution, behindProxy);
      case NjsOidc(config, secretOk, certificateOk) =>
        failed := AddNjs(c, config, secretOk, certificateOk);
      case NativeOidc(native, secretsOk) =>
        failed := AddNative(c, native, secretsOk);
      case Cors(headers, originMap) =>
        if originMap.Some? {
          cfg := cfg.(corsMap := originMap);
        }
        cfg := cfg.(corsHeaders := headers);
      case Other =>
    }
  }

  lemma OwnersAppend(c: Context, reg: Registry, ps: Found, i: nat)
    requires i < |ps| && ps[i].Some? && forall k :: 0 <= k < i ==> !FailsAt(c, reg, ps, k)
    ensures OwnersAfter(c, reg, ps[..i + 1]) ==
            StepOwners(c, OwnersAfter(c, reg, ps[..i]), Declared(c, reg, ps[..i]), ps[i].value)
    ensures FirstOidc(ps[..i]) == i ==> OwnersAfter(c, reg, ps[..i]) == reg
  {
    var pre, p := ps[..i], ps[i];
    assert ps[..i + 1] == pre + [p];
    FirstOidcAppend(pre, p);
    forall n, k | k < n <= |ps| && 0 <= k < i
      ensures !FailsAt(c, reg, ps[..n], k)
    {
      FailsInPrefix(c, reg, ps, k, n);
    }
    var f := FirstOidc(pre);
    assert forall k :: 0 <= k < i ==> (pre + [p])[k] == pre[k];
    hide FailsAt, AfterOidc, FirstOidc, Allows, Denies, Zones, Requests, OptionsOf, LastHeaders, LastOriginMap, ProviderOf, SlotsOf;
  }

  /** The registry after a failing reference is the one it leaves. */
  lemma OwnersStop(c: Context, reg: Registry, ps: Found, i: nat)
    requires i < |ps| && FailsAt(c, reg, ps, i)
    requires forall k :: 0 <= k < i ==> !FailsAt(c, reg, ps, k)
    ensures OwnersAfter(c, reg, ps) == OwnersAfter(c, reg, ps[..if ps[i].Some? then i + 1 else i])
  {
    var n := if ps[i].Some? then i + 1 else i;
    var f, g := FirstOidc(ps), FirstOidc(ps[..n]);
    assert forall k :: 0 <= k < n ==> ps[..n][k] == ps[k];
    forall k | 0 <= k < n
      ensures FailsAt(c, reg, ps[..n], k) <==> FailsAt(c, reg, ps, k)
    {
      FailsInPrefix(c, reg, ps, k, n);
    }
    hide FailsAt, AfterOidc, FirstOidc;
    if f < n {
      assert g == f;
    } else {
      assert g == n;
    }
  }

  lemma DeclaredNothing(c: Context, reg: Registry)
    ensures Declared(c, reg, []) == EMPTY && OwnersAfter(c, reg, []) == reg
  {
    assert SlotsOf([]) == map[];
  }

  lemma PolicyAt(h: Holder, policies: map<string, Policy>, refs: seq<Reference>, i: nat)
    requires i < |refs|
    ensures LookupAll(h, policies, refs)[i] == Lookup(h, policies, refs[i])
  {
  }

  /** The policies of a context. The registry keeps what was entered even when it fails. */
  method GeneratePolicies(h: Holder, c: Context, refs: seq<Reference>, policies: map<string, Policy>, registry: LocationRegistry)
    returns (r: Outcome)
    modifies registry
    ensures var reg, ps := old(registry.owners), LookupAll(h, policies, refs);
            && (r.Denied? <==> IsDenied(c, reg, ps))
            && (r.Accepted? ==> r.config == Declared(c, reg, ps) && Listing(r.groupMaps, GroupMaps(Zones(ps))))
            && registry.owners == OwnersAfter(c, reg, ps)
  {
    hide FailsAt, Declared, OwnersAfter, Lookup, LookupAll, StepFails, StepOwners, Extended, Zones;
    ghost var reg, ps := registry.owners, LookupAll(h, policies, refs);
    assert |ps| == |refs| by { LookupLength(h, policies, refs); }
    var config := new Builder(registry);
    DeclaredNothing(c, reg);
    var i := 0;
    while i < |refs|
      invariant 0 <= i <= |refs|
      invariant config.registry == registry
      invariant config.cfg == Declared(c, reg, ps[..i])
      invariant registry.owners == OwnersAfter(c, reg, ps[..i])
      invariant forall k :: 0 <= k < i ==> !FailsAt(c, reg, ps, k)
    {
      var found := Lookup(h, policies, refs[i]);
      PolicyAt(h, policies, refs, i);
      assert found == ps[i];
      if found.None? {
        NoneFails(c, reg, ps, i);
        OwnersStop(c, reg, ps, i);
        return Denied;
      }
      Advance(c, reg, ps, i);
      var failed := config.Add(c, found.value);
      if failed {
        OwnersStop(c, reg, ps, i);
        return Denied;
      }
      assert ps[..i + 1] == ps[..i] + [ps[i]];
      i := i + 1;
    }
    assert ps[..i] == ps;
    ConfigZones(c, reg, ps);
    var maps := CollectGroupMaps(config.cfg.zones);
    RejectedExactly(config.cfg.zones);
    hide GroupMaps, Listing, Conflicting, Tiers, Variables;
    if maps.None? {
      return Denied;
    }
    r := Accepted(config.cfg, maps.value);
  }

  lemma LookupLength(h: Holder, policies: map<string, Policy>, refs: seq<Reference>)
    ensures |LookupAll(h, policies, refs)| == |refs|
  {
  }

  lemma NoneFails(c: Context, reg: Registry, ps: Found, i: nat)
    requires i < |ps| && ps[i].None?
    ensures FailsAt(c, reg, ps, i)
  {
  }

  lemma ConfigZones(c: Context, reg: Registry, ps: Found)
    ensures Declared(c, reg, ps).zones == Zones(ps)
  {
  }

  /** One more reference fails or extends the record as declared, although it meets the
      registry as it is by then. */
  lemma Advance(c: Context, reg: Registry, ps: Found, i: nat)
    requires i < |ps| && ps[i].Some? && forall k :: 0 <= k < i ==> !FailsAt(c, reg, ps, k)
    ensures var p, cfg, now := ps[i].value, Declared(c, reg, ps[..i]), OwnersAfter(c, reg, ps[..i]);
            && (StepFails(c, now, cfg, p) <==> FailsAt(c, reg, ps, i))
            && Extended(c, now, cfg, p) == Declared(c, reg, ps[..i] + [ps[i]])
            && StepOwners(c, now, cfg, p) == OwnersAfter(c, reg, ps[..i + 1])
  {
    var p, cfg, now := ps[i].value, Declared(c, reg, ps[..i]), OwnersAfter(c, reg, ps[..i]);
    FailsIsStepFails(c, reg, ps, i);
    DeclaredAppend(c, reg, ps[..i], p);
    OwnersAppend(c, reg, ps, i);
    OidcSlot(c, reg, ps[..i]);
    hide FailsAt, Declared, OwnersAfter, OidcFails, ProviderOf, StepOwners;
  }

  lemma OidcSlot(c: Context, reg: Registry, ps: Found)
    ensures var cfg := Declared(c, reg, ps);
            FirstOidc(ps) == |ps| <==> cfg.njs.None? && cfg.provider.None?
  {
    hide Allows, Denies, Zones, Requests, OptionsOf, LastHeaders, LastOriginMap, ProviderOf, SlotsOf;
  }

  /** A slot holds the first policy that fills it. */
  lemma {:induction false} FirstIsFirst(ps: Found, slot: Slot, i: nat)
    requires i < |ps| && Fills(ps[i], slot).Some? && forall k :: 0 <= k < i ==> Fills(ps[k], slot).None?
    ensures First(ps, slot) == Fills(ps[i], slot)
  {
    if i > 0 {
      FirstIsFirst(ps[1..], slot, i - 1);
    }
  }

  /** Nothing that comes after a failing reference can lift the denial. */
  lemma FailsClosed(c: Context, reg: Registry, ps: Found, n: nat)
    requires n <= |ps| && SomeFails(c, reg, ps[..n])
    ensures IsDenied(c, reg, ps)
  {
    var i :| 0 <= i < n && FailsAt(c, reg, ps[..n], i);
    FailsInPrefix(c, reg, ps, i, n);
  }
}
