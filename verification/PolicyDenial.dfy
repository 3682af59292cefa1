/** When a context answers 500, and which policies it uses otherwise, read off its references and
    the stored policies. */
module PolicyDenial {
  import opened Text
  import opened Nginx
  import opened OidcRegistry
  import opened Policies

  /** The text that a reference stands for: a reference without a namespace is in that of its
      holder. */
  function Written(h: Holder, r: Reference): string {
    if |r.namespace| > 0 then r.namespace + "/" + r.name else h.namespace + "/" + r.name
  }

  /** The stored policy that reference `i` names. */
  predicate Stored(h: Holder, policies: map<string, Policy>, refs: seq<Reference>, i: nat)
    requires i < |refs|
  {
    Written(h, refs[i]) in policies
  }

  function Named(h: Holder, policies: map<string, Policy>, refs: seq<Reference>, i: nat): Policy
    requires i < |refs| && Stored(h, policies, refs, i)
  {
    policies[Written(h, refs[i])]
  }

  /** The kinds of policy that an Ingress cannot have. */
  predicate NotForIngress(p: Policy) {
    || p.RateLimit?
    || p.NjsOidc?
    || p.Other?
    || (p.Single? && (p.slot.Jwt? || p.slot.BasicAuth? || p.slot.ApiKey? || p.slot.Wallarm? || p.slot.Cache? || p.slot.Hsts?))
  }

  /** Reference `k` gives a usable value for the slot. */
  predicate Gives(h: Holder, policies: map<string, Policy>, refs: seq<Reference>, k: nat, slot: Slot)
    requires k < |refs|
  {
    Stored(h, policies, refs, k) && var p := Named(h, policies, refs, k); p.Single? && p.slot == slot && p.resolution.Usable?
  }

  predicate NamesNjs(h: Holder, policies: map<string, Policy>, refs: seq<Reference>, k: nat)
    requires k < |refs|
  {
    Stored(h, policies, refs, k) && Named(h, policies, refs, k).NjsOidc?
  }

  predicate NamesNative(h: Holder, policies: map<string, Policy>, refs: seq<Reference>, k: nat)
    requires k < |refs|
  {
    Stored(h, policies, refs, k) && Named(h, policies, refs, k).NativeOidc?
  }

  /** Mutual TLS with clients needs TLS and the whole server; so does HSTS, for which a proxy in
      front may have the TLS. */
  predicate OutOfPlace(c: Context, p: Policy) {
    || (p.Single? && p.slot == IngressMtls && !(c.spec && c.tls))
    || (p.Single? && p.slot == Hsts && !(c.spec && (c.tls || p.behindProxy)))
  }

  /** The policy cannot be the OIDC policy of the context. */
  predicate Unfit(c: Context, reg: Registry, p: Policy) {
    || (p.NativeOidc? && !(p.secretsOk && Admitted(reg, p.native)))
    || (p.NjsOidc? && c.njs.Some? && p.config.key != c.njs.value.key)
    || (p.NjsOidc? && c.njs.None? && !(p.secretOk && p.certificateOk && NjsAdmitted(reg, p.config.redirect)))
  }

  /** Why reference `i` makes the context answer 500. */
  ghost predicate Refused(h: Holder, c: Context, reg: Registry, policies: map<string, Policy>, refs: seq<Reference>, i: nat)
    requires i < |refs|
  {
    Stored(h, policies, refs, i) ==>
       var p := Named(h, policies, refs, i);
       || (h.ingress && NotForIngress(p))
       || OutOfPlace(c, p)
       || (p.Single? && p.slot == ApiKey && exists k :: 0 <= k < i && Gives(h, policies, refs, k, ApiKey))
       || (p.Single? && p.resolution.Unusable? && forall k :: 0 <= k < i ==> !Gives(h, policies, refs, k, p.slot))
       || (p.NjsOidc? && exists k :: 0 <= k < i && NamesNative(h, policies, refs, k))
       || (p.NativeOidc? && exists k :: 0 <= k < i && NamesNjs(h, policies, refs, k))
       || (Unfit(c, reg, p) && forall k :: 0 <= k < i ==> !NamesNjs(h, policies, refs, k) && !NamesNative(h, policies, refs, k))
  }

  /** Lookups find what is stored under the text, and nothing else. */
  lemma LookupExactly(h: Holder, policies: map<string, Policy>, refs: seq<Reference>, i: nat)
    requires i < |refs|
    ensures var ps := LookupAll(h, policies, refs);
            && |ps| == |refs|
            && (ps[i].None? <==> !Stored(h, policies, refs, i) || (h.ingress && NotForIngress(Named(h, policies, refs, i))))
            && (ps[i].Some? ==> ps[i].value == Named(h, policies, refs, i))
  {
    assert KeyOf(h, refs[i]) == Written(h, refs[i]);
  }

  lemma {:induction false} FirstNone(ps: Found, slot: Slot)
    ensures First(ps, slot).None? <==> forall k :: 0 <= k < |ps| ==> Fills(ps[k], slot).None?
  {
    hide Fills;
    if |ps| > 0 {
      FirstNone(ps[1..], slot);
      assert forall k :: 0 < k < |ps| ==> ps[k] == ps[1..][k - 1];
    }
  }

  /** All references up to `i` are found. */
  ghost predicate AllFound(h: Holder, policies: map<string, Policy>, refs: seq<Reference>, i: nat)
    requires i < |refs|
  {
    var ps := LookupAll(h, policies, refs);
    |ps| == |refs| && forall k :: 0 <= k <= i ==> ps[k].Some? && Stored(h, policies, refs, k) && ps[k].value == Named(h, policies, refs, k)
  }

  /** Where all are found, the slot is taken before `i` when some reference before it gives it. */
  lemma TakenExactly(h: Holder, policies: map<string, Policy>, refs: seq<Reference>, i: nat, slot: Slot)
    requires i < |refs| && AllFound(h, policies, refs, i)
    ensures First(LookupAll(h, policies, refs)[..i], slot).Some? <==> exists k :: 0 <= k < i && Gives(h, policies, refs, k, slot)
  {
    hide LookupAll, First, Named, Stored;
    var ps := LookupAll(h, policies, refs);
    FirstNone(ps[..i], slot);
    forall k | 0 <= k < i
      ensures Fills(ps[..i][k], slot).Some? <==> Gives(h, policies, refs, k, slot)
    {
      assert ps[..i][k] == ps[k];
    }
  }

  lemma OidcBefore(h: Holder, policies: map<string, Policy>, refs: seq<Reference>, i: nat)
    requires i < |refs| && AllFound(h, policies, refs, i)
    ensures var ps := LookupAll(h, policies, refs);
            var f := FirstOidc(ps[..i]);
            && (forall k :: 0 <= k < i ==> (IsOidc(ps[k]) <==> NamesNjs(h, policies, refs, k) || NamesNative(h, policies, refs, k)))
            && (f == i <==> forall k :: 0 <= k < i ==> !NamesNjs(h, policies, refs, k) && !NamesNative(h, policies, refs, k))
            && (f < i ==> (ps[f].value.NjsOidc? <==> NamesNjs(h, policies, refs, f)))
  {
    hide LookupAll, FirstOidc, Named, Stored;
    var ps := LookupAll(h, policies, refs);
    var f := FirstOidc(ps[..i]);
    assert forall k :: 0 <= k < i ==> ps[..i][k] == ps[k];
  }

  lemma FailingIsRefused(h: Holder, c: Context, reg: Registry, policies: map<string, Policy>, refs: seq<Reference>, i: nat)
    requires i < |refs| && AllFound(h, policies, refs, i) && FailsAt(c, reg, LookupAll(h, policies, refs), i)
    ensures Refused(h, c, reg, policies, refs, i)
  {
    hide LookupAll, First, FirstOidc, Named, Stored, Gives, NamesNjs, NamesNative, Admitted, NjsAdmitted;
    var ps := LookupAll(h, policies, refs);
    var p := ps[i].value;
    OidcBefore(h, policies, refs, i);
    if p.Single? {
      TakenExactly(h, policies, refs, i, p.slot);
    }
  }

  /** Both kinds of OIDC policy cannot be in one context. */
  lemma BothKindsFail(h: Holder, c: Context, reg: Registry, policies: map<string, Policy>, refs: seq<Reference>, k: nat, i: nat)
    requires k < i < |refs| && AllFound(h, policies, refs, i)
    requires var ps := LookupAll(h, policies, refs);
             IsOidc(ps[k]) && IsOidc(ps[i]) && ps[k].value.NjsOidc? != ps[i].value.NjsOidc?
    ensures SomeFails(c, reg, LookupAll(h, policies, refs))
  {
    hide LookupAll, FirstOidc, First, Named, Stored;
    var ps := LookupAll(h, policies, refs);
    var f, g := FirstOidc(ps[..i]), FirstOidc(ps[..k]);
    assert forall n :: 0 <= n < i ==> ps[..i][n] == ps[n];
    assert forall n :: 0 <= n < k ==> ps[..k][n] == ps[n];
    assert f <= k;
    if ps[f].value.NjsOidc? != ps[i].value.NjsOidc? {
      assert FailsAt(c, reg, ps, i);
    } else {
      assert g == f < k;
      assert FailsAt(c, reg, ps, k);
    }
  }

  lemma RefusedFails(h: Holder, c: Context, reg: Registry, policies: map<string, Policy>, refs: seq<Reference>, i: nat)
    requires i < |refs| && AllFound(h, policies, refs, i) && Refused(h, c, reg, policies, refs, i)
    ensures SomeFails(c, reg, LookupAll(h, policies, refs))
  {
    LookupExactly(h, policies, refs, i);
    hide LookupAll, First, FirstOidc, Named, Stored, Gives, NamesNjs, NamesNative, Admitted, NjsAdmitted, NotForIngress;
    var ps := LookupAll(h, policies, refs);
    var p := ps[i].value;
    OidcBefore(h, policies, refs, i);
    if p.Single? {
      TakenExactly(h, policies, refs, i, p.slot);
      assert FailsAt(c, reg, ps, i);
    } else {
      OidcRefusedFails(h, c, reg, policies, refs, i);
    }
  }

  lemma OidcRefusedFails(h: Holder, c: Context, reg: Registry, policies: map<string, Policy>, refs: seq<Reference>, i: nat)
    requires i < |refs| && AllFound(h, policies, refs, i) && Refused(h, c, reg, policies, refs, i)
    requires !Named(h, policies, refs, i).Single?
    ensures SomeFails(c, reg, LookupAll(h, policies, refs))
  {
    LookupExactly(h, policies, refs, i);
    hide LookupAll, First, FirstOidc, Admitted, NjsAdmitted, NotForIngress, Written;
    var ps := LookupAll(h, policies, refs);
    var p := ps[i].value;
    OidcBefore(h, policies, refs, i);
    if p.NjsOidc? && exists k :: 0 <= k < i && NamesNative(h, policies, refs, k) {
      var k :| 0 <= k < i && NamesNative(h, policies, refs, k);
      BothKindsFail(h, c, reg, policies, refs, k, i);
    } else if p.NativeOidc? && exists k :: 0 <= k < i && NamesNjs(h, policies, refs, k) {
      var k :| 0 <= k < i && NamesNjs(h, policies, refs, k);
      BothKindsFail(h, c, reg, policies, refs, k, i);
    } else {
      assert FailsAt(c, reg, ps, i);
    }
  }

  /** The first reference that is not found, or `i`. */
  lemma NotFoundFails(h: Holder, c: Context, reg: Registry, policies: map<string, Policy>, refs: seq<Reference>, i: nat)
    requires i < |refs| && !AllFound(h, policies, refs, i)
    ensures exists k :: 0 <= k <= i && FailsAt(c, reg, LookupAll(h, policies, refs), k) && Refused(h, c, reg, policies, refs, k)
  {
    var ps := LookupAll(h, policies, refs);
    forall k | 0 <= k <= i
      ensures |ps| == |refs| && (ps[k].Some? ==> Stored(h, policies, refs, k) && ps[k].value == Named(h, policies, refs, k))
      ensures ps[k].None? ==> !Stored(h, policies, refs, k) || (h.ingress && NotForIngress(Named(h, policies, refs, k)))
    {
      LookupExactly(h, policies, refs, k);
    }
    hide LookupAll, Stored, Named, Refused, NotForIngress;
    var k :| 0 <= k <= i && ps[k].None?;
    NoneFails(c, reg, ps, k);
    NotFoundRefused(h, c, reg, policies, refs, k);
  }

  lemma NotFoundRefused(h: Holder, c: Context, reg: Registry, policies: map<string, Policy>, refs: seq<Reference>, k: nat)
    requires k < |refs| && (!Stored(h, policies, refs, k) || (h.ingress && NotForIngress(Named(h, policies, refs, k))))
    ensures Refused(h, c, reg, policies, refs, k)
  {
  }

  /** A context answers 500 if and only if one of its references is refused or its tiers conflict.
      Otherwise every policy it uses is the one stored under the reference's text. */
  lemma DeniedExactly(h: Holder, c: Context, reg: Registry, policies: map<string, Policy>, refs: seq<Reference>)
    ensures var ps := LookupAll(h, policies, refs);
            && (IsDenied(c, reg, ps) <==> (exists i :: 0 <= i < |refs| && Refused(h, c, reg, policies, refs, i)) || ConflictingTiers(Zones(ps)))
            && (!IsDenied(c, reg, ps) ==>
                  |ps| == |refs| && forall i :: 0 <= i < |refs| ==> Stored(h, policies, refs, i) && ps[i] == Some(Named(h, policies, refs, i)))
  {
    hide LookupAll, Refused, FailsAt, Zones, ConflictingTiers, AllFound;
    var ps := LookupAll(h, policies, refs);
    LookupLength(h, policies, refs);
    forall i | 0 <= i < |refs|
      ensures FailsAt(c, reg, ps, i) ==> exists k :: 0 <= k < |refs| && Refused(h, c, reg, policies, refs, k)
      ensures Refused(h, c, reg, policies, refs, i) ==> SomeFails(c, reg, ps)
    {
      if AllFound(h, policies, refs, i) {
        if FailsAt(c, reg, ps, i) { FailingIsRefused(h, c, reg, policies, refs, i); }
        if Refused(h, c, reg, policies, refs, i) { RefusedFails(h, c, reg, policies, refs, i); }
      } else {
        NotFoundFails(h, c, reg, policies, refs, i);
      }
    }
    forall i | 0 <= i < |refs|
      ensures !IsDenied(c, reg, ps) ==> Stored(h, policies, refs, i) && ps[i] == Some(Named(h, policies, refs, i))
    {
      LookupExactly(h, policies, refs, i);
      if ps[i].None? { NoneFails(c, reg, ps, i); }
    }
  }

  // ---- what an accepted context holds ----

  predicate IsAccess(p: Option<Policy>) { p.Some? && p.value.AccessControl? }

  predicate IsCors(p: Option<Policy>) { p.Some? && p.value.Cors? }

  predicate HasOrigins(p: Option<Policy>) { IsCors(p) && p.value.originMap.Some? }

  predicate IsLimit(p: Option<Policy>) { p.Some? && p.value.RateLimit? }

  predicate Sets(p: Option<Policy>, slot: Slot) { p.Some? && p.value.Single? && p.value.slot == slot && p.value.resolution.Usable? }

  function LimitsBefore(ps: Found, n: nat): nat
    requires n <= |ps|
  {
    if n == 0 then 0 else LimitsBefore(ps, n - 1) + if IsLimit(ps[n - 1]) then 1 else 0
  }

  lemma {:induction false} AddressesExactly(ps: Found, x: string)
    ensures x in Allows(ps) <==> exists i :: 0 <= i < |ps| && IsAccess(ps[i]) && x in ps[i].value.allow
    ensures x in Denies(ps) <==> exists i :: 0 <= i < |ps| && IsAccess(ps[i]) && x in ps[i].value.deny
  {
    if |ps| > 0 {
      AddressesExactly(ps[1..], x);
      assert forall i :: 0 < i < |ps| ==> ps[i] == ps[1..][i - 1];
      if i :| 0 <= i < |ps[1..]| && IsAccess(ps[1..][i]) && x in ps[1..][i].value.allow {
        assert ps[i + 1] == ps[1..][i];
      }
      if i :| 0 <= i < |ps[1..]| && IsAccess(ps[1..][i]) && x in ps[1..][i].value.deny {
        assert ps[i + 1] == ps[1..][i];
      }
    }
  }

  lemma {:induction false} CorsIsLast(ps: Found, i: nat)
    requires i < |ps|
    ensures IsCors(ps[i]) && (forall j :: i < j < |ps| ==> !IsCors(ps[j])) ==> LastHeaders(ps) == ps[i].value.headers
    ensures HasOrigins(ps[i]) && (forall j :: i < j < |ps| ==> !HasOrigins(ps[j])) ==> LastOriginMap(ps) == ps[i].value.originMap
  {
    if i < |ps| - 1 {
      var init := ps[..|ps| - 1];
      CorsIsLast(init, i);
      assert forall j :: 0 <= j < |init| ==> init[j] == ps[j];
    }
  }

  lemma {:induction false} NoCors(ps: Found)
    ensures (forall i :: 0 <= i < |ps| ==> !IsCors(ps[i])) ==> LastHeaders(ps) == []
    ensures (forall i :: 0 <= i < |ps| ==> !HasOrigins(ps[i])) ==> LastOriginMap(ps) == None
  {
    if |ps| > 0 {
      NoCors(ps[..|ps| - 1]);
    }
  }

  /** The rate limits come in the order of the references. */
  lemma {:induction false} LimitAt(ps: Found, n: nat)
    requires n <= |ps|
    ensures |RateLimits(ps[..n])| == LimitsBefore(ps, n)
    ensures forall i :: 0 <= i < n && IsLimit(ps[i]) ==> LimitsBefore(ps, i) < LimitsBefore(ps, n) && RateLimits(ps[..n])[LimitsBefore(ps, i)] == ps[i].value
  {
    if n > 0 {
      LimitAt(ps, n - 1);
      assert ps[..n] == ps[..n - 1] + [ps[n - 1]];
      RateLimitsAppend(ps[..n - 1], ps[n - 1]);
      hide RateLimits;
    }
  }

  lemma SlotExactly(ps: Found, slot: Slot)
    ensures slot in SlotsOf(ps) <==> exists i :: 0 <= i < |ps| && Sets(ps[i], slot)
    ensures forall i :: 0 <= i < |ps| && Sets(ps[i], slot) && (forall k :: 0 <= k < i ==> !Sets(ps[k], slot)) ==>
              slot in SlotsOf(ps) && SlotsOf(ps)[slot] == ps[i].value.resolution.value
  {
    FirstNone(ps, slot);
    assert slot in SlotsOf(ps) <==> First(ps, slot).Some?;
    forall i | 0 <= i < |ps| && Sets(ps[i], slot) && (forall k :: 0 <= k < i ==> !Sets(ps[k], slot))
      ensures First(ps, slot) == Some(ps[i].value.resolution.value)
    {
      FirstIsFirst(ps, slot, i);
    }
    assert forall i :: 0 <= i < |ps| ==> (Sets(ps[i], slot) <==> Fills(ps[i], slot).Some?);
    hide First, Fills;
  }

  /** The record of a context, read off its policies: every address of its access lists; every rate
      limit in order, with the options of the first; in every slot the first usable value; and the
      last CORS headers and origins. */
  lemma RecordExactly(c: Context, reg: Registry, ps: Found)
    ensures var r := Declared(c, reg, ps);
            && (forall x :: x in r.allow <==> exists i :: 0 <= i < |ps| && IsAccess(ps[i]) && x in ps[i].value.allow)
            && (forall x :: x in r.deny <==> exists i :: 0 <= i < |ps| && IsAccess(ps[i]) && x in ps[i].value.deny)
            && |r.zones| == |r.requests| == LimitsBefore(ps, |ps|)
            && (forall i :: 0 <= i < |ps| && IsLimit(ps[i]) ==>
                  && LimitsBefore(ps, i) < |r.zones|
                  && r.zones[LimitsBefore(ps, i)] == ps[i].value.zone && r.requests[LimitsBefore(ps, i)] == ps[i].value.request
                  && (LimitsBefore(ps, i) == 0 ==> r.options == Some(ps[i].value.options)))
            && (forall slot :: slot in r.slots <==> exists i :: 0 <= i < |ps| && Sets(ps[i], slot))
            && (forall slot, i :: 0 <= i < |ps| && Sets(ps[i], slot) && (forall k :: 0 <= k < i ==> !Sets(ps[k], slot)) ==>
                  slot in r.slots && r.slots[slot] == ps[i].value.resolution.value)
    ensures var r := Declared(c, reg, ps);
            && (forall i :: 0 <= i < |ps| && IsCors(ps[i]) && (forall j :: i < j < |ps| ==> !IsCors(ps[j])) ==> r.corsHeaders == ps[i].value.headers)
            && (forall i :: 0 <= i < |ps| && HasOrigins(ps[i]) && (forall j :: i < j < |ps| ==> !HasOrigins(ps[j])) ==> r.corsMap == ps[i].value.originMap)
            && ((forall i :: 0 <= i < |ps| ==> !IsCors(ps[i])) ==> r.corsHeaders == [])
            && ((forall i :: 0 <= i < |ps| ==> !HasOrigins(ps[i])) ==> r.corsMap == None)
  {
    hide Allows, Denies, LastHeaders, LastOriginMap, SlotsOf, FirstOidc, ProviderOf, RateLimits;
    forall x
      ensures x in Allows(ps) <==> exists i :: 0 <= i < |ps| && IsAccess(ps[i]) && x in ps[i].value.allow
      ensures x in Denies(ps) <==> exists i :: 0 <= i < |ps| && IsAccess(ps[i]) && x in ps[i].value.deny
    {
      AddressesExactly(ps, x);
    }
    LimitAt(ps, |ps|);
    assert ps[..|ps|] == ps;
    forall slot
      ensures slot in SlotsOf(ps) <==> exists i :: 0 <= i < |ps| && Sets(ps[i], slot)
      ensures forall i :: 0 <= i < |ps| && Sets(ps[i], slot) && (forall k :: 0 <= k < i ==> !Sets(ps[k], slot)) ==>
                slot in SlotsOf(ps) && SlotsOf(ps)[slot] == ps[i].value.resolution.value
    {
      SlotExactly(ps, slot);
    }
    forall i | 0 <= i < |ps|
      ensures IsCors(ps[i]) && (forall j :: i < j < |ps| ==> !IsCors(ps[j])) ==> LastHeaders(ps) == ps[i].value.headers
      ensures HasOrigins(ps[i]) && (forall j :: i < j < |ps| ==> !HasOrigins(ps[j])) ==> LastOriginMap(ps) == ps[i].value.originMap
    {
      CorsIsLast(ps, i);
    }
    NoCors(ps);
  }
}
