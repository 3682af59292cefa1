/** OIDC providers of a mergeable Ingress: the master and its minions register in one registry
    and are rendered into one server. Ingresses take native OIDC policies only. */
module MergeableOidc {
  import opened Text
  import opened OidcRegistry

  /** The master or a minion: its native policy, if any, whether its policies come through
      without an error, and how many of its hosts are valid. */
  datatype Member = Member(policy: Option<NativePolicy>, kept: bool, hosts: nat)

  function RegistrationsOf(ms: seq<Member>): seq<Registration> {
    if |ms| == 0 then []
    else (if ms[0].policy.Some? then [Native(ms[0].policy.value, ms[0].kept)] else []) + RegistrationsOf(ms[1..])
  }

  function After(reg: Registry, m: Member): Registry {
    if m.policy.Some? && Admitted(reg, m.policy.value) then Registered(reg, m.policy.value) else reg
  }

  /** The provider once for every host. */
  function Copies(v: Provider, n: nat): (r: seq<Provider>)
    ensures forall w :: w in r ==> w == v
  {
    if n == 0 then [] else Copies(v, n - 1) + [v]
  }

  function ProvidersOf(reg: Registry, m: Member): seq<Provider> {
    if m.policy.Some? && m.kept && Admitted(reg, m.policy.value) then Copies(ProviderOf(reg, m.policy.value), m.hosts) else []
  }

  function Parts(reg: Registry, ms: seq<Member>): seq<seq<Provider>>
    decreases |ms|
  {
    if |ms| == 0 then [] else [ProvidersOf(reg, ms[0])] + Parts(After(reg, ms[0]), ms[1..])
  }

  function Flatten(parts: seq<seq<Provider>>): seq<Provider> {
    if |parts| == 0 then [] else parts[0] + Flatten(parts[1..])
  }

  function EachDeduplicated(parts: seq<seq<Provider>>): seq<seq<Provider>> {
    if |parts| == 0 then [] else [Deduplicated(parts[0], {}, {})] + EachDeduplicated(parts[1..])
  }

  function Merged(ms: seq<Member>): seq<Provider> { Deduplicated(Flatten(EachDeduplicated(Parts(map[], ms))), {}, {}) }

  method CollectProviders(registry: LocationRegistry, m: Member) returns (own: seq<Provider>)
    modifies registry
    ensures own == ProvidersOf(old(registry.owners), m) && registry.owners == After(old(registry.owners), m)
  {
    hide Registered, ProviderOf, Admitted;
    own := [];
    if m.policy.Some? {
      var v := registry.RegisterNative(m.policy.value);
      if v.Some? && m.kept {
        var host := 0;
        while host < m.hosts
          invariant 0 <= host <= m.hosts
          invariant own == Copies(v.value, host)
        {
          own := own + [v.value];
          host := host + 1;
        }
      }
    }
  }

  /** Duplicates are removed in every member and then once more from all of them. */
  method GenerateProviders(ms: seq<Member>) returns (ps: seq<Provider>)
    ensures ps == Merged(ms)
  {
    hide ProvidersOf, After, Deduplicated, Parts, Flatten, EachDeduplicated;
    var registry := new LocationRegistry();
    ghost var all := Flatten(EachDeduplicated(Parts(map[], ms)));
    ps := [];
    var i := 0;
    assert ms[0..] == ms && [] + all == all;
    while i < |ms|
      invariant 0 <= i <= |ms|
      invariant fresh(registry)
      invariant ps + Flatten(EachDeduplicated(Parts(registry.owners, ms[i..]))) == all
    {
      NextMember(registry.owners, ms, i);
      var own := CollectProviders(registry, ms[i]);
      var mine := RemoveDuplicateProviders(own);
      ghost var rest := Flatten(EachDeduplicated(Parts(registry.owners, ms[i + 1..])));
      assert ps + (mine + rest) == (ps + mine) + rest;
      ps := ps + mine;
      i := i + 1;
    }
    NoMembers(registry.owners, ms[i..]);
    assert ps + [] == ps;
    ps := RemoveDuplicateProviders(ps);
  }

  lemma NoMembers(reg: Registry, ms: seq<Member>)
    requires ms == []
    ensures Flatten(EachDeduplicated(Parts(reg, ms))) == []
  {
  }

  lemma NextMember(reg: Registry, ms: seq<Member>, i: nat)
    requires i < |ms|
    ensures Flatten(EachDeduplicated(Parts(reg, ms[i..]))) ==
            Deduplicated(ProvidersOf(reg, ms[i]), {}, {}) + Flatten(EachDeduplicated(Parts(After(reg, ms[i]), ms[i + 1..])))
  {
    hide ProvidersOf, After, Deduplicated;
    var rest := Parts(After(reg, ms[i]), ms[i + 1..]);
    assert ms[i..][0] == ms[i] && ms[i..][1..] == ms[i + 1..];
    assert Parts(reg, ms[i..]) == [ProvidersOf(reg, ms[i])] + rest;
    assert ([ProvidersOf(reg, ms[i])] + rest)[1..] == rest;
    var each := [Deduplicated(ProvidersOf(reg, ms[i]), {}, {})] + EachDeduplicated(rest);
    assert each[1..] == EachDeduplicated(rest);
  }

  // ---- one run ----

  lemma {:induction false} ProvidersGrow(rs: seq<Registration>, more: seq<Registration>)
    ensures forall v :: v in Run(rs).providers ==> v in Run(rs + more).providers
    decreases |more|
  {
    hide Admitted, NjsAdmitted, Registered, NjsRegistered, ProviderOf;
    if |more| == 0 {
      assert rs + more == rs;
    } else {
      ProvidersGrow(rs, more[..|more| - 1]);
      assert (rs + more)[..|rs + more| - 1] == rs + more[..|more| - 1];
    }
  }

  lemma StepOf(rs: seq<Registration>, r: Registration)
    ensures Run(rs + [r]) == Step(Run(rs), r)
  {
    hide Step;
    assert (rs + [r])[..|rs|] == rs;
  }

  /** Everything that the members collect comes from one run over all their policies. */
  lemma {:induction false} PartsFromRun(rs: seq<Registration>, ms: seq<Member>)
    ensures forall v :: v in Flatten(Parts(Run(rs).owners, ms)) ==> v in Run(rs + RegistrationsOf(ms)).providers
    decreases |ms|
  {
    hide Run, Admitted, Registered, ProviderOf, NjsAdmitted;
    if |ms| > 0 {
      var m, reg := ms[0], Run(rs).owners;
      var own := if m.policy.Some? then [Native(m.policy.value, m.kept)] else [];
      var rest := RegistrationsOf(ms[1..]);
      if m.policy.Some? {
        StepOf(rs, own[0]);
        assert rs + own == rs + [own[0]];
      } else {
        assert rs + own == rs;
      }
      assert Run(rs + own).owners == After(reg, m);
      assert forall v :: v in ProvidersOf(reg, m) ==> v in Run(rs + own).providers;
      PartsFromRun(rs + own, ms[1..]);
      ProvidersGrow(rs + own, rest);
      assert rs + RegistrationsOf(ms) == rs + own + rest;
      assert ([ProvidersOf(reg, m)] + Parts(After(reg, m), ms[1..]))[1..] == Parts(After(reg, m), ms[1..]);
    }
  }

  // ---- removing duplicates in parts ----

  lemma {:induction false} DeduplicatedMembers(parts: seq<seq<Provider>>)
    requires OneClaimant(Flatten(parts))
    ensures forall v :: v in Flatten(EachDeduplicated(parts)) ==> v in Flatten(parts)
    ensures ByName(Flatten(EachDeduplicated(parts)), {}) == ByName(Flatten(parts), {})
  {
    if |parts| > 0 {
      var a, b := parts[0], Flatten(parts[1..]);
      assert forall v :: v in a || v in b ==> v in a + b;
      DeduplicatedMembers(parts[1..]);
      SecondPassIdle(a, {}, {});
      var a', each := ByName(a, {}), EachDeduplicated(parts[1..]);
      var b' := Flatten(each);
      assert ([a'] + each)[1..] == each;
      assert Flatten(EachDeduplicated(parts)) == a' + b';
      SameAfterwards(a, b, b');
    }
  }

  lemma SameAfterwards(a: seq<Provider>, b: seq<Provider>, b': seq<Provider>)
    requires ByName(b', {}) == ByName(b, {})
    ensures ByName(ByName(a, {}) + b', {}) == ByName(a + b, {})
  {
    var a' := ByName(a, {});
    ByNameConcat(a, b, {});
    ByNameConcat(a', b', {});
    ByNameTwice(a, {}, {});
    ByNameTwice(b, {}, Names(a));
    ByNameTwice(b', {}, Names(a));
    ByNameNames(a, {});
    hide ByName, Names;
    assert {} + Names(a') == {} + Names(a) == Names(a') == Names(a);
  }

  /** Removing duplicates member by member and then from everything keeps the same providers as
      removing them once, for any number of members. */
  lemma DeduplicatedInManyParts(parts: seq<seq<Provider>>)
    requires OneClaimant(Flatten(parts))
    ensures Deduplicated(Flatten(EachDeduplicated(parts)), {}, {}) == Deduplicated(Flatten(parts), {}, {})
  {
    DeduplicatedMembers(parts);
    hide ByName, Flatten, EachDeduplicated;
    SecondPassIdle(Flatten(parts), {}, {});
    SecondPassIdle(Flatten(EachDeduplicated(parts)), {}, {});
  }

  // ---- what is rendered ----

  lemma CollectedHold(ms: seq<Member>)
    ensures var reg := Run(RegistrationsOf(ms)).owners;
            forall v :: v in Flatten(Parts(map[], ms)) ==> Holds(reg, v)
    ensures OneClaimant(Flatten(Parts(map[], ms)))
  {
    var rs, all := RegistrationsOf(ms), Flatten(Parts(map[], ms));
    PartsFromRun([], ms);
    assert Run([]).owners == map[] && [] + rs == rs;
    hide Flatten, Parts, RegistrationsOf;
    RunValid(rs);
    ValidClaimants(Run(rs));
    hide Run, Holds;
  }

  /** Over a master and any number of minions: no OIDC location is rendered twice exactly when the
      own paths of each rendered policy are distinct. Policies of different members never
      collide. */
  lemma NoPathMergedTwice(ms: seq<Member>)
    ensures Unique(AllPaths(Merged(ms))) <==> forall v :: v in ByName(Flatten(Parts(map[], ms)), {}) ==> OwnDistinct(v)
  {
    var all, reg := Flatten(Parts(map[], ms)), Run(RegistrationsOf(ms)).owners;
    CollectedHold(ms);
    DeduplicatedInManyParts(Parts(map[], ms));
    SecondPassIdle(all, {}, {});
    AllPathsUnique(reg, all, {});
    forall v | v in ByName(all, {})
      ensures Unique(Paths(v)) <==> OwnDistinct(v)
    {
      OwnPathsUnique(reg, v);
    }
  }
}
