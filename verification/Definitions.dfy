/** In the configuration of a whole VirtualServer every generated variable has exactly the
    definition its route gave it: de-duplication of maps never drops a routing map, and no
    policy's map gets in the way. */
module Definitions {
  import opened Text
  import opened Nginx
  import opened Routes
  import opened Compile
  import opened VariableNames
  import opened Layout
  import opened RouteMeaning

  // ---- de-duplication ----

  function MapId(m: Map): string { m.source + m.variable }

  /** The maps whose source and variable, run together, were not seen before. */
  function Deduplicated(maps: seq<Map>, seen: set<string>): (r: seq<Map>)
  {
    if |maps| == 0 then []
    else if MapId(maps[0]) in seen then Deduplicated(maps[1..], seen)
    else [maps[0]] + Deduplicated(maps[1..], seen + {MapId(maps[0])})
  }

  lemma {:induction false} DeduplicatedSubset(maps: seq<Map>, seen: set<string>)
    ensures forall m :: m in Deduplicated(maps, seen) ==> m in maps
  {
    if |maps| > 0 {
      DeduplicatedSubset(maps[1..], seen);
      DeduplicatedSubset(maps[1..], seen + {MapId(maps[0])});
    }
  }

  /** A map survives when every map it could be mistaken for is the same map. */
  lemma {:induction false} DeduplicatedKeeps(maps: seq<Map>, seen: set<string>, m: Map)
    requires m in maps && MapId(m) !in seen
    requires forall m' :: m' in maps && MapId(m') == MapId(m) ==> m' == m
    ensures m in Deduplicated(maps, seen)
  {
    if MapId(maps[0]) != MapId(m) {
      assert m in maps[1..];
      DeduplicatedKeeps(maps[1..], seen + {MapId(maps[0])}, m);
      if MapId(maps[0]) in seen {
        DeduplicatedKeeps(maps[1..], seen, m);
      }
    }
  }

  predicate OneDollar(v: string) { |v| > 0 && v[0] == '$' && Lacks(v[1..], '$') }

  /** Run together with its source, a variable can still be read off the end. */
  lemma SameIdSameVariable(a: string, v: string, b: string, w: string)
    requires OneDollar(v) && OneDollar(w) && a + v == b + w
    ensures v == w
  {
    var s := a + v;
    assert s[|a|] == '$' && s[|b|] == '$';
    assert forall i :: |a| < i < |s| ==> s[i] == v[1..][i - |a| - 1] != '$';
    assert forall i :: |b| < i < |s| ==> s[i] == w[1..][i - |b| - 1] != '$';
    assert |a| == |b|;
    assert s[|a|..] == v && s[|b|..] == w;
  }

  // ---- the program of a VirtualServer ----

  /** All maps in the order they are generated: those of the spec's policies, for every
      route those of its policies and its own, and at the end those of API keys. */
  function CollectedMaps(st: Settings, specMaps: seq<Map>, pls: seq<Placed>, keyMaps: seq<Map>): seq<Map> {
    specMaps + AllMapsOf(st, pls) + keyMaps
  }

  function ProgramOf(st: Settings, specMaps: seq<Map>, pls: seq<Placed>, keyMaps: seq<Map>): Program {
    Program(Deduplicated(CollectedMaps(st, specMaps, pls, keyMaps), {}),
            ClientsOf(st, GroupsOf(st, pls)), KeyValsOf(st, GroupsOf(st, pls)))
  }

  predicate PolicyMaps(maps: seq<Map>) { forall m :: m in maps ==> ValidPolicyMap(m) }

  lemma {:induction false} AllMapsMembers(st: Settings, pls: seq<Placed>)
    requires forall pl :: pl in pls ==> PolicyMaps(pl.job.route.policyMaps)
    ensures forall m :: m in AllMapsOf(st, pls) ==> m in RoutingMapsOf(st, pls) || ValidPolicyMap(m)
    ensures forall m :: m in RoutingMapsOf(st, pls) ==> m in AllMapsOf(st, pls)
  {
    if |pls| > 0 {
      hide RouteMaps, ValidPolicyMap;
      AllMapsMembers(st, pls[1..]);
    }
  }

  lemma PolicyIsNotRouting(m: Map)
    requires ValidPolicyMap(m)
    ensures !Routing(m.variable) && OneDollar(m.variable)
  {
    var v := m.variable;
    assert |v| >= 4 && v[0] == '$' && v[1] != 'v';
  }

  lemma VariableHasOneDollar(v: string)
    requires IsVariable(v)
    ensures OneDollar(v)
  {
  }

  lemma RoutingMapVariable(st: Settings, maps: seq<Map>, ks: seq<Key>, m: Map) returns (k: Key)
    requires Readable(st.namer) && Named(st, maps, ks) && m in maps
    ensures k in ks && m.variable == st.namer.variable(k) && Routing(m.variable) && OneDollar(m.variable)
  {
    var i :| 0 <= i < |maps| && maps[i] == m;
    k := ks[i];
    VariableFacts(st.namer, k);
    VariableHasOneDollar(m.variable);
  }

  lemma SameVariableSameMap(st: Settings, maps: seq<Map>, ks: seq<Key>, m: Map, m': Map)
    requires Distinct(st.namer) && Named(st, maps, ks) && Unique(ks)
    requires m in maps && m' in maps && m.variable == m'.variable
    ensures m == m'
  {
    var i :| 0 <= i < |maps| && maps[i] == m;
    var j :| 0 <= j < |maps| && maps[j] == m';
    assert st.namer.variable(ks[i]) == st.namer.variable(ks[j]);
    assert ks[i] == ks[j];
  }

  /** What is known of all collected maps. */
  ghost predicate Collected(st: Settings, maps: seq<Map>, routing: seq<Map>, ks: seq<Key>) {
    && (forall m :: m in maps ==> m in routing || ValidPolicyMap(m))
    && (forall m :: m in routing ==> m in maps)
    && Named(st, routing, ks) && Unique(ks)
    && (forall k :: k in ks ==> MapKey(k))
  }

  /** A routing map is never dropped, and it is the definition of its variable. */
  lemma RoutingMapInForce(st: Settings, maps: seq<Map>, routing: seq<Map>, ks: seq<Key>, m: Map)
    requires Readable(st.namer) && Distinct(st.namer) && Collected(st, maps, routing, ks) && m in routing
    ensures m in Deduplicated(maps, {})
    ensures FindMap(Deduplicated(maps, {}), m.variable) == Some(m)
  {
    hide Readable, Distinct, Named, Unique, ValidPolicyMap, MapKey, OneDollar, Routing;
    forall m' | m' in maps && m'.variable == m.variable ensures m' == m {
      var _ := RoutingMapVariable(st, routing, ks, m);
      if m' in routing {
        SameVariableSameMap(st, routing, ks, m, m');
      } else {
        PolicyIsNotRouting(m');
      }
    }
    forall m' | m' in maps && MapId(m') == MapId(m) ensures m' == m {
      var _ := RoutingMapVariable(st, routing, ks, m);
      if m' in routing {
        var _ := RoutingMapVariable(st, routing, ks, m');
      } else {
        PolicyIsNotRouting(m');
      }
      SameIdSameVariable(m.source, m.variable, m'.source, m'.variable);
    }
    DeduplicatedKeeps(maps, {}, m);
    DeduplicatedSubset(maps, {});
    FindMapSpec(Deduplicated(maps, {}), m.variable);
  }

  lemma NoMapFor(st: Settings, maps: seq<Map>, routing: seq<Map>, ks: seq<Key>, k: Key)
    requires Readable(st.namer) && Distinct(st.namer) && Collected(st, maps, routing, ks) && !MapKey(k)
    ensures FindMap(Deduplicated(maps, {}), st.namer.variable(k)) == None
  {
    DeduplicatedSubset(maps, {});
    FindMapSpec(Deduplicated(maps, {}), st.namer.variable(k));
    forall m | m in maps ensures m.variable != st.namer.variable(k) {
      VariableFacts(st.namer, k);
      if m in routing {
        var k' := RoutingMapVariable(st, routing, ks, m);
      } else {
        PolicyIsNotRouting(m);
      }
    }
  }

  lemma ClientInForce(st: Settings, gs: seq<Group>, s: SplitClient) returns (k: Key)
    requires Distinct(st.namer) && Packed(st, gs, 0) && s in ClientsOf(st, gs)
    ensures (k.Splits? || k.Weighted?) && s.variable == st.namer.variable(k)
    ensures FindSplitClient(ClientsOf(st, gs), s.variable) == Some(s)
  {
    ClientKeysSpec(st, gs, 0);
    var scs, ks := ClientsOf(st, gs), ClientKeys(st, gs);
    hide ClientsOf, ClientKeys, Packed;
    var i :| 0 <= i < |scs| && scs[i] == s;
    k := ks[i];
    FindSplitClientSpec(scs, s.variable);
    forall s' | s' in scs && s'.variable == s.variable ensures s' == s {
      var j :| 0 <= j < |scs| && scs[j] == s';
      assert ks[i] == ks[j];
    }
  }

  lemma NoClientFor(st: Settings, gs: seq<Group>, k: Key)
    requires Distinct(st.namer) && Packed(st, gs, 0) && k.Keyval?
    ensures FindSplitClient(ClientsOf(st, gs), st.namer.variable(k)) == None
  {
    FindSplitClientSpec(ClientsOf(st, gs), st.namer.variable(k));
    forall s | s in ClientsOf(st, gs) ensures s.variable != st.namer.variable(k) {
      var k' := ClientInForce(st, gs, s);
    }
  }

  lemma KeyValInForce(st: Settings, gs: seq<Group>, kv: KeyVal) returns (k: Key)
    requires Distinct(st.namer) && Packed(st, gs, 0) && kv in KeyValsOf(st, gs)
    ensures k.Keyval? && kv.variable == st.namer.variable(k)
    ensures FindKeyVal(KeyValsOf(st, gs), kv.variable) == Some(kv)
  {
    KeyvalKeysSpec(st, gs, 0);
    var kvs, ks := KeyValsOf(st, gs), KeyvalKeys(st, gs);
    hide KeyValsOf, KeyvalKeys, Packed;
    var i :| 0 <= i < |kvs| && kvs[i] == kv;
    k := ks[i];
    FindKeyValSpec(kvs, kv.variable);
    forall k' | k' in kvs && k'.variable == kv.variable ensures k' == kv {
      var j :| 0 <= j < |kvs| && kvs[j] == k';
      assert ks[i] == ks[j];
    }
  }

  // ---- every route finds its definitions ----

  /** The environment a VirtualServer's requests are evaluated in. */
  ghost predicate InForce(e: Env, st: Settings, pls: seq<Placed>) {
    && KeepsNative(e)
    && (forall m :: m in RoutingMapsOf(st, pls) ==> e(m.variable) == MapDef(m))
    && (forall s :: s in ClientsOf(st, GroupsOf(st, pls)) ==> e(s.variable) == SplitDef(s))
    && (forall k :: k in KeyValsOf(st, GroupsOf(st, pls)) ==> e(k.variable) == KeyvalDef(k))
  }

  lemma NativeKept(st: Settings, p: Program, routing: seq<Map>, ks: seq<Key>, maps: seq<Map>, gs: seq<Group>, v: string)
    requires Readable(st.namer) && Distinct(st.namer) && Collected(st, maps, routing, ks) && Packed(st, gs, 0)
    requires p == Program(Deduplicated(maps, {}), ClientsOf(st, gs), KeyValsOf(st, gs)) && NativeVariable(v)
    ensures Resolve(p, v) == Native
  {
    hide Readable, Distinct, Packed, Named, Unique, MapKey;
    DeduplicatedSubset(maps, {});
    FindMapSpec(p.maps, v);
    FindSplitClientSpec(p.splitClients, v);
    FindKeyValSpec(p.keyVals, v);
    forall m | m in maps ensures m.variable != v {
      if m in routing { var _ := RoutingMapVariable(st, routing, ks, m); }
    }
    forall s | s in p.splitClients ensures s.variable != v {
      var k := ClientInForce(st, gs, s);
      VariableFacts(st.namer, k);
    }
    forall kv | kv in p.keyVals ensures kv.variable != v {
      var k := KeyValInForce(st, gs, kv);
      VariableFacts(st.namer, k);
    }
  }

  lemma CollectedMapsSpec(st: Settings, specMaps: seq<Map>, jobs: seq<Job>, keyMaps: seq<Map>)
    requires PolicyMaps(specMaps) && PolicyMaps(keyMaps)
    requires forall j :: j in jobs ==> PolicyMaps(j.route.policyMaps)
    ensures var pls := Lay(st, jobs, 0, 0);
            Collected(st, CollectedMaps(st, specMaps, pls, keyMaps), RoutingMapsOf(st, pls), AllMapKeys(st, pls))
  {
    var pls := Lay(st, jobs, 0, 0);
    forall pl | pl in pls ensures PolicyMaps(pl.job.route.policyMaps) {
      var i :| 0 <= i < |pls| && pls[i] == pl;
      assert jobs[i] in jobs;
    }
    AllMapKeysSpec(st, jobs, 0, 0);
    AllMapsMembers(st, pls);
  }

  lemma EverythingInForce(st: Settings, p: Program, routing: seq<Map>, ks: seq<Key>, maps: seq<Map>, pls: seq<Placed>)
    requires Readable(st.namer) && Distinct(st.namer)
    requires Collected(st, maps, routing, ks) && routing == RoutingMapsOf(st, pls) && Packed(st, GroupsOf(st, pls), 0)
    requires p == Program(Deduplicated(maps, {}), ClientsOf(st, GroupsOf(st, pls)), KeyValsOf(st, GroupsOf(st, pls)))
    ensures InForce(EnvOf(p), st, pls)
  {
    hide GroupsOf, RoutingMapsOf, Collected, Packed, Readable, Distinct, Deduplicated, ClientsOf, KeyValsOf, NativeVariable;
    var gs := GroupsOf(st, pls);
    forall v | NativeVariable(v) ensures EnvOf(p)(v) == Native { NativeKept(st, p, routing, ks, maps, gs, v); }
    forall m | m in routing ensures EnvOf(p)(m.variable) == MapDef(m) { RoutingMapInForce(st, maps, routing, ks, m); }
    forall s | s in ClientsOf(st, gs) ensures EnvOf(p)(s.variable) == SplitDef(s) {
      var k := ClientInForce(st, gs, s);
      NoMapFor(st, maps, routing, ks, k);
    }
    forall kv | kv in KeyValsOf(st, gs) ensures EnvOf(p)(kv.variable) == KeyvalDef(kv) {
      var k := KeyValInForce(st, gs, kv);
      NoMapFor(st, maps, routing, ks, k);
      NoClientFor(st, gs, k);
    }
  }

  /** All definitions of all routes are in force at once. */
  lemma DefinitionsInForce(st: Settings, specMaps: seq<Map>, jobs: seq<Job>, keyMaps: seq<Map>)
    requires Readable(st.namer) && Distinct(st.namer)
    requires PolicyMaps(specMaps) && PolicyMaps(keyMaps)
    requires forall j :: j in jobs ==> PolicyMaps(j.route.policyMaps)
    ensures InForce(EnvOf(ProgramOf(st, specMaps, Lay(st, jobs, 0, 0), keyMaps)), st, Lay(st, jobs, 0, 0))
  {
    hide Lay, GroupsOf, RoutingMapsOf, AllMapKeys, CollectedMaps, Deduplicated, ClientsOf, KeyValsOf, Collected, InForce;
    hide Packed, Readable, Distinct;
    var pls := Lay(st, jobs, 0, 0);
    GroupsArePacked(st, jobs, 0, 0);
    CollectedMapsSpec(st, specMaps, jobs, keyMaps);
    EverythingInForce(st, ProgramOf(st, specMaps, pls, keyMaps), RoutingMapsOf(st, pls), AllMapKeys(st, pls),
                      CollectedMaps(st, specMaps, pls, keyMaps), pls);
  }

  // ---- what one route needs ----

  lemma {:induction false} RoutingMapMember(st: Settings, pls: seq<Placed>, pl: Placed)
    requires pl in pls
    ensures forall m :: m in RouteMaps(st, pl.job.route, pl.mi, pl.sc) ==> m in RoutingMapsOf(st, pls)
    ensures forall g :: g in RouteGroups(st, pl.job.route, pl.sc) ==> g in GroupsOf(st, pls)
  {
    hide RouteMaps, RouteGroups;
    if pl != pls[0] {
      RoutingMapMember(st, pls[1..], pl);
    }
  }

  lemma {:induction false} GroupMember(st: Settings, gs: seq<Group>, g: Group)
    requires g in gs
    ensures forall s :: s in GroupClients(st, g) ==> s in ClientsOf(st, gs)
    ensures forall k :: k in GroupKeyVals(st, g) ==> k in KeyValsOf(st, gs)
    ensures forall m :: m in GroupMaps(st, g) ==> m in MapsOf(st, gs)
  {
    hide GroupClients, GroupKeyVals, GroupMaps;
    if g != gs[0] {
      GroupMember(st, gs[1..], g);
    }
  }

  lemma {:induction false} ConditionMapMember(st: Settings, mi: nat, ms: seq<Match>, k: nat, i: nat, j: nat)
    requires k <= i < |ms| && j < |ms[i].conditions|
    ensures ConditionMap(st, mi, i, ms[i].conditions, j) in ConditionMaps(st, mi, ms, k)
    decreases i - k
  {
    hide ConditionMap;
    if k == i {
      assert MatchMaps(st, mi, i, ms[i].conditions)[j] == ConditionMap(st, mi, i, ms[i].conditions, j);
    } else {
      ConditionMapMember(st, mi, ms, k + 1, i, j);
    }
  }

  lemma {:induction false} MatchGroupMember(st: Settings, ms: seq<Match>, k: nat, i: nat, sc: nat)
    requires k <= i < |ms| && |ms[i].splits| > 0
    ensures Group(GroupIndex(st, ms, i, sc), ms[i].splits) in MatchGroups(st, ms, k, sc)
    decreases i - k
  {
    if k < i {
      MatchGroupMember(st, ms, k + 1, i, sc);
    }
  }

  lemma GroupIsDefined(e: Env, st: Settings, pls: seq<Placed>, pl: Placed, g: Group)
    requires InForce(e, st, pls) && pl in pls && g in RouteGroups(st, pl.job.route, pl.sc) && |g.splits| > 0
    ensures GroupDefined(e, st, g)
  {
    hide RouteGroups, GroupsOf, RoutingMapsOf, ClientsOf, KeyValsOf, GroupClients, GroupKeyVals, GroupMaps, MatchesMaps;
    RoutingMapMember(st, pls, pl);
    GroupMember(st, GroupsOf(st, pls), g);
    GroupMember(st, RouteGroups(st, pl.job.route, pl.sc), g);
    forall m | m in GroupMaps(st, g) ensures e(m.variable) == MapDef(m) {
      assert m in RouteMaps(st, pl.job.route, pl.mi, pl.sc);
    }
  }

  lemma MatchesAreDefined(e: Env, st: Settings, pls: seq<Placed>, pl: Placed)
    requires InForce(e, st, pls) && pl in pls && |pl.job.route.matches| > 0
    ensures MatchesDefined(e, st, pl.mi, pl.job.route.matches)
    ensures e(st.namer.variable(Main(pl.mi))) == MapDef(MainMap(st, pl.job.route, pl.mi, pl.sc))
  {
    hide RouteGroups, GroupsOf, RoutingMapsOf, ClientsOf, KeyValsOf, ConditionMaps;
    var r := pl.job.route;
    RoutingMapMember(st, pls, pl);
    forall i, j | 0 <= i < |r.matches| && 0 <= j < |r.matches[i].conditions|
      ensures var m := ConditionMap(st, pl.mi, i, r.matches[i].conditions, j); e(m.variable) == MapDef(m)
    {
      ConditionMapMember(st, pl.mi, r.matches, 0, i, j);
      assert ConditionMap(st, pl.mi, i, r.matches[i].conditions, j) in RouteMaps(st, r, pl.mi, pl.sc);
    }
    assert MainMap(st, r, pl.mi, pl.sc) in RouteMaps(st, r, pl.mi, pl.sc);
  }

  /** Each route's definitions are in force in the environment of the whole VirtualServer. */
  lemma RouteIsDefined(e: Env, st: Settings, pls: seq<Placed>, pl: Placed)
    requires InForce(e, st, pls) && pl in pls
    ensures RouteDefined(e, st, pl.job.route, pl.mi, pl.sc)
  {
    hide InForce, GroupDefined, MatchesDefined;
    var r := pl.job.route;
    if |r.matches| > 0 {
      MatchesAreDefined(e, st, pls, pl);
    }
    forall i | 0 <= i < |r.matches| && |r.matches[i].splits| > 0
      ensures GroupDefined(e, st, Group(GroupIndex(st, r.matches, i, pl.sc), r.matches[i].splits))
    {
      MatchGroupMember(st, r.matches, 0, i, pl.sc);
      GroupIsDefined(e, st, pls, pl, Group(GroupIndex(st, r.matches, i, pl.sc), r.matches[i].splits));
    }
    if |r.splits| > 0 {
      GroupIsDefined(e, st, pls, pl, Group(GroupIndex(st, r.matches, |r.matches|, pl.sc), r.splits));
    }
  }
}
