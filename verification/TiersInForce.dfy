/** The `map` blocks of tiered rate limits over a whole VirtualServer. A policy that two routes
    name gives its zone one map per route; the generator removes a map only when another has the
    same source and variable, and NGINX keeps the last definition of a variable. */
module TiersInForce {
  import opened Text
  import opened Nginx
  import opened Definitions
  import opened RateLimitTiers

  /** A generated map: that of one zone's key, or any other. */
  datatype Piece = Tier(zone: Zone) | Other(m: Map)

  function MapOf(p: Piece): Map {
    match p
    case Tier(z) => PolicyGroupMap(z)
    case Other(m) => m
  }

  function MapsOf(ps: seq<Piece>): seq<Map> { seq(|ps|, i requires 0 <= i < |ps| => MapOf(ps[i])) }

  function Others(ms: seq<Map>): seq<Piece> { seq(|ms|, i requires 0 <= i < |ms| => Other(ms[i])) }

  function TierPieces(zones: seq<Zone>): seq<Piece> {
    if |zones| == 0 then []
    else (if zones[0].groupVariable != "" then [Tier(zones[0])] else []) + TierPieces(zones[1..])
  }

  /** The rate limits of the spec, a route or a subroute: its zones, the list its group maps came
      out in, and the maps generated after them. */
  datatype Context = Context(zones: seq<Zone>, groupMaps: seq<Map>, after: seq<Map>)

  predicate Listed(c: Context) {
    && (forall v :: v in GroupMaps(c.zones) ==> GroupMaps(c.zones)[v] in c.groupMaps)
    && (forall m :: m in c.groupMaps ==> m.variable in GroupMaps(c.zones) && GroupMaps(c.zones)[m.variable] == m)
  }

  function Pieces(cs: seq<Context>): seq<Piece> {
    if |cs| == 0 then []
    else Others(cs[0].groupMaps) + TierPieces(cs[0].zones) + Others(cs[0].after) + Pieces(cs[1..])
  }

  /** What the names promise: one `$` in each variable, zone variables that only zones define,
      and the same map for the same zone in the same group. */
  ghost predicate Separate(ps: seq<Piece>) {
    && (forall p :: p in ps ==> OneDollar(MapOf(p).variable))
    && (forall p, p' :: p in ps && p' in ps && p.Tier? && p'.Other? ==> p'.m.variable != ZoneVariable(p.zone))
    && (forall p, p' :: p in ps && p' in ps && p.Tier? && p'.Tier? && SameTier(p.zone, p'.zone) ==> PolicyGroupMap(p.zone) == PolicyGroupMap(p'.zone))
  }

  predicate SameTier(z: Zone, w: Zone) { z.name == w.name && z.groupVariable == w.groupVariable }

  /** The first map of a zone in its group. */
  ghost predicate First(ps: seq<Piece>, i: nat) {
    && i < |ps| && ps[i].Tier?
    && forall k :: 0 <= k < i && ps[k].Tier? ==> !SameTier(ps[k].zone, ps[i].zone)
  }

  // ---- which map is in force ----

  lemma {:induction false} DeduplicatedSnoc(ms: seq<Map>, m: Map, seen: set<string>)
    ensures Deduplicated(ms + [m], seen) ==
            Deduplicated(ms, seen) + if MapId(m) in seen || (exists k :: 0 <= k < |ms| && MapId(ms[k]) == MapId(m)) then [] else [m]
    decreases |ms|
  {
    hide MapId;
    if |ms| == 0 {
      assert ms + [m] == [m] && [m][1..] == [];
      assert Deduplicated([m][1..], seen) == [] && Deduplicated([m][1..], seen + {MapId(m)}) == [];
    } else {
      var id := MapId(ms[0]);
      assert (ms + [m])[1..] == ms[1..] + [m];
      var next := if id in seen then seen else seen + {id};
      DeduplicatedSnoc(ms[1..], m, next);
      SomewhereSplit(ms, MapId(m));
      assert Deduplicated(ms + [m], seen) == (if id in seen then [] else [ms[0]]) + Deduplicated(ms[1..] + [m], next);
    }
  }

  lemma SomewhereSplit(ms: seq<Map>, id: string)
    requires |ms| > 0
    ensures (exists k :: 0 <= k < |ms| && MapId(ms[k]) == id) <==>
            (MapId(ms[0]) == id || exists k :: 0 <= k < |ms[1..]| && MapId(ms[1..][k]) == id)
  {
    hide MapId;
    if k :| 0 <= k < |ms| && MapId(ms[k]) == id {
      assert k > 0 ==> ms[1..][k - 1] == ms[k];
    }
    if k :| 0 <= k < |ms[1..]| && MapId(ms[1..][k]) == id {
      assert ms[k + 1] == ms[1..][k];
    }
  }

  lemma SameMapId(a: Map, b: Map)
    requires OneDollar(a.variable) && OneDollar(b.variable)
    ensures MapId(a) == MapId(b) <==> a.source == b.source && a.variable == b.variable
  {
    if MapId(a) == MapId(b) {
      SameIdSameVariable(a.source, a.variable, b.source, b.variable);
      assert |a.source| == |b.source|;
      assert a.source == MapId(a)[..|a.source|] && b.source == MapId(b)[..|b.source|];
    }
  }

  /** A zone's map is dropped exactly when the zone already has a map in the same group. */
  lemma DroppedExactly(ps: seq<Piece>, n: nat)
    requires Separate(ps) && n < |ps| && ps[n].Tier?
    ensures (exists k :: 0 <= k < n && MapId(MapsOf(ps[..n])[k]) == MapId(MapOf(ps[n]))) <==> !First(ps, n)
  {
    var ms := MapsOf(ps[..n]);
    hide MapId, OneDollar;
    forall k | 0 <= k < n
      ensures MapId(ms[k]) == MapId(MapOf(ps[n])) <==> ps[k].Tier? && SameTier(ps[k].zone, ps[n].zone)
    {
      assert ps[k] in ps && ps[n] in ps && ms[k] == MapOf(ps[k]);
      SameMapId(MapOf(ps[k]), MapOf(ps[n]));
      if ps[k].Tier? {
        SameZoneVariable(ps[k].zone, ps[n].zone);
      }
    }
    hide SameTier, MapsOf, MapOf, Separate;
    if k :| 0 <= k < n && ps[k].Tier? && SameTier(ps[k].zone, ps[n].zone) {
      assert MapId(ms[k]) == MapId(MapOf(ps[n]));
    }
  }

  lemma SameZoneVariable(z: Zone, w: Zone)
    ensures ZoneVariable(z) == ZoneVariable(w) <==> z.name == w.name
    ensures PolicyGroupMap(z).variable == ZoneVariable(z) && PolicyGroupMap(z).source == z.groupVariable
  {
    assert ZoneVariable(z)[1..] == z.name && ZoneVariable(w)[1..] == w.name;
  }

  /** The last of the first maps of a zone variable among the first `n`. */
  ghost function LastFirst(ps: seq<Piece>, n: nat, v: string): (k: int)
    requires n <= |ps|
    ensures -1 <= k < n
    ensures k >= 0 ==> First(ps, k) && ZoneVariable(ps[k].zone) == v
    ensures forall j :: k < j < n && First(ps, j) ==> ZoneVariable(ps[j].zone) != v
  {
    if n == 0 then -1
    else if First(ps, n - 1) && ZoneVariable(ps[n - 1].zone) == v then n - 1
    else LastFirst(ps, n - 1, v)
  }

  lemma FindMapSnoc(ms: seq<Map>, m: Map, v: string)
    ensures FindMap(ms + [m], v) == if m.variable == v then Some(m) else FindMap(ms, v)
  {
    assert (ms + [m])[..|ms|] == ms;
  }

  lemma NextDefinition(ps: seq<Piece>, n: nat, v: string)
    requires Separate(ps) && n < |ps| && forall p :: p in ps && p.Other? ==> p.m.variable != v
    ensures FindMap(Deduplicated(MapsOf(ps[..n + 1]), {}), v) ==
            if First(ps, n) && ZoneVariable(ps[n].zone) == v then Some(PolicyGroupMap(ps[n].zone))
            else FindMap(Deduplicated(MapsOf(ps[..n]), {}), v)
  {
    hide Separate, First, Deduplicated, FindMap, MapId, ZoneVariable, PolicyGroupMap;
    var ms, m := MapsOf(ps[..n]), MapOf(ps[n]);
    assert MapsOf(ps[..n + 1]) == ms + [m];
    DeduplicatedSnoc(ms, m, {});
    FindMapSnoc(Deduplicated(ms, {}), m, v);
    assert ps[n] in ps;
    FirstIsTier(ps, n);
    if ps[n].Tier? {
      DroppedExactly(ps, n);
      SameZoneVariable(ps[n].zone, ps[n].zone);
    }
    hide MapsOf;
    assert Deduplicated(ms, {}) + [] == Deduplicated(ms, {});
  }

  lemma FirstIsTier(ps: seq<Piece>, i: nat)
    ensures First(ps, i) ==> i < |ps| && ps[i].Tier?
  {
  }

  lemma {:induction false} LastFirstInForce(ps: seq<Piece>, n: nat, v: string)
    requires Separate(ps) && n <= |ps| && forall p :: p in ps && p.Other? ==> p.m.variable != v
    ensures var k := LastFirst(ps, n, v);
            FindMap(Deduplicated(MapsOf(ps[..n]), {}), v) == if k < 0 then None else Some(PolicyGroupMap(ps[k].zone))
  {
    hide Separate, First, MapsOf, Deduplicated, FindMap, ZoneVariable, PolicyGroupMap;
    if n == 0 {
      NothingInForce(ps, v);
    } else {
      LastFirstInForce(ps, n - 1, v);
      NextDefinition(ps, n - 1, v);
      FirstIsTier(ps, n - 1);
    }
  }

  lemma NothingInForce(ps: seq<Piece>, v: string)
    ensures FindMap(Deduplicated(MapsOf(ps[..0]), {}), v) == None
  {
    assert MapsOf(ps[..0]) == [];
  }

  ghost predicate Latest(ps: seq<Piece>, i: nat)
    requires First(ps, i)
  {
    forall j :: i < j < |ps| && First(ps, j) ==> ps[j].zone.name != ps[i].zone.name
  }

  lemma FirstMapInForce(ps: seq<Piece>, i: nat)
    requires Separate(ps) && First(ps, i)
    ensures FindMap(Deduplicated(MapsOf(ps), {}), ZoneVariable(ps[i].zone)) == Some(PolicyGroupMap(ps[i].zone)) <==> Latest(ps, i)
  {
    var v := ZoneVariable(ps[i].zone);
    assert ps[i] in ps;
    LastFirstInForce(ps, |ps|, v);
    assert ps[..|ps|] == ps;
    var k := LastFirst(ps, |ps|, v);
    forall j: nat | First(ps, j) ensures ZoneVariable(ps[j].zone) == v <==> ps[j].zone.name == ps[i].zone.name {
      SameZoneVariable(ps[j].zone, ps[i].zone);
    }
    SameZoneVariable(ps[i].zone, ps[i].zone);
    if k >= 0 {
      SameZoneVariable(ps[k].zone, ps[i].zone);
    }
    hide Separate, MapsOf, Deduplicated, FindMap, ZoneVariable, PolicyGroupMap;
    assert k >= i;
    assert k > i ==> !SameTier(ps[i].zone, ps[k].zone);
  }

  /** No map of the same zone in another group first occurs after the zone's own. */
  ghost predicate InForce(ps: seq<Piece>, z: Zone) {
    exists i :: 0 <= i < |ps| && First(ps, i) && SameTier(ps[i].zone, z) && Latest(ps, i)
  }

  lemma {:induction false} FirstOf(ps: seq<Piece>, z: Zone, n: nat) returns (i: nat)
    requires n < |ps| && ps[n].Tier? && SameTier(ps[n].zone, z)
    ensures First(ps, i) && SameTier(ps[i].zone, z)
  {
    if k :| 0 <= k < n && ps[k].Tier? && SameTier(ps[k].zone, z) {
      i := FirstOf(ps, z, k);
    } else {
      i := n;
    }
  }

  lemma FirstIsOne(ps: seq<Piece>, i: nat, j: nat)
    requires First(ps, i) && First(ps, j) && SameTier(ps[i].zone, ps[j].zone)
    ensures i == j
  {
  }

  /** The map of a zone in its group is in force exactly when no map of the same zone in another
      group first occurs after it. */
  lemma ZoneMapInForce(ps: seq<Piece>, z: Zone)
    requires Separate(ps) && Tier(z) in ps
    ensures FindMap(Deduplicated(MapsOf(ps), {}), ZoneVariable(z)) == Some(PolicyGroupMap(z)) <==> InForce(ps, z)
  {
    var n :| 0 <= n < |ps| && ps[n] == Tier(z);
    var i := FirstOf(ps, z, n);
    FirstMapInForce(ps, i);
    SameZoneVariable(ps[i].zone, z);
    assert ps[i] in ps && PolicyGroupMap(ps[i].zone) == PolicyGroupMap(z);
    forall j: nat | First(ps, j) && SameTier(ps[j].zone, z) ensures j == i {
      FirstIsOne(ps, i, j);
    }
    hide Separate, MapsOf, Deduplicated, FindMap, ZoneVariable, PolicyGroupMap, First, Latest;
  }

  // ---- over a whole VirtualServer ----

  lemma PieceMaps(ps: seq<Piece>)
    ensures forall p :: p in ps ==> MapOf(p) in MapsOf(ps)
    ensures forall m :: m in MapsOf(ps) ==> exists p :: p in ps && MapOf(p) == m
  {
    forall p | p in ps ensures MapOf(p) in MapsOf(ps) {
      var i :| 0 <= i < |ps| && ps[i] == p;
      assert MapsOf(ps)[i] == MapOf(p);
    }
  }

  /** A variable that one map defines, however often, has that map. */
  lemma OnlyMapInForce(ps: seq<Piece>, m: Map)
    requires Separate(ps) && Other(m) in ps
    requires forall p :: p in ps && MapOf(p).variable == m.variable ==> MapOf(p) == m
    ensures FindMap(Deduplicated(MapsOf(ps), {}), m.variable) == Some(m)
  {
    var maps := MapsOf(ps);
    PieceMaps(ps);
    assert MapOf(Other(m)) == m;
    forall m' | m' in maps && MapId(m') == MapId(m) ensures m' == m {
      var p :| p in ps && MapOf(p) == m';
      SameMapId(m', m);
    }
    hide MapsOf, MapId;
    DeduplicatedKeeps(maps, {}, m);
    DeduplicatedSubset(maps, {});
    FindMapSpec(Deduplicated(maps, {}), m.variable);
  }

  lemma {:induction false} TierPiecesMember(zones: seq<Zone>, z: Zone)
    requires z in zones && z.groupVariable != ""
    ensures Tier(z) in TierPieces(zones)
  {
    if zones[0] != z {
      assert z in zones[1..];
      TierPiecesMember(zones[1..], z);
    }
  }

  lemma {:induction false} PiecesMember(cs: seq<Context>, c: Context, p: Piece)
    requires c in cs && (p in Others(c.groupMaps) || p in TierPieces(c.zones))
    ensures p in Pieces(cs)
  {
    hide Others, TierPieces;
    if cs[0] != c {
      assert c in cs[1..];
      PiecesMember(cs[1..], c, p);
    }
  }

  function ReadAll(ms: seq<Map>): seq<Map> { seq(|ms|, i requires 0 <= i < |ms| => Read(ms[i])) }

  lemma {:induction false} FindRead(ms: seq<Map>, v: string)
    ensures FindMap(ReadAll(ms), v) == match FindMap(ms, v) case Some(m) => Some(Read(m)) case None => None
  {
    if |ms| > 0 {
      FindRead(ms[..|ms| - 1], v);
      assert ReadAll(ms)[..|ms| - 1] == ReadAll(ms[..|ms| - 1]);
      assert Read(ms[|ms| - 1]).variable == ms[|ms| - 1].variable;
    }
  }

  /** What a VirtualServer's configuration says of its rate limits. */
  ghost predicate Runs(p: Program, cs: seq<Context>) { p.maps == ReadAll(Deduplicated(MapsOf(Pieces(cs)), {})) }

  /** Nothing but its own group map defines a zone's group variable. */
  ghost predicate OwnGroup(cs: seq<Context>, c: Context, v: string) {
    && v in GroupMaps(c.zones)
    && forall p :: p in Pieces(cs) && MapOf(p).variable == v ==> MapOf(p) == GroupMaps(c.zones)[v]
  }

  lemma TierDefinitions(p: Program, cs: seq<Context>, c: Context, z: Zone)
    requires Runs(p, cs) && Separate(Pieces(cs)) && c in cs && Listed(c) && z in c.zones
    requires z.groupVariable != "" && OwnGroup(cs, c, z.groupVariable) && InForce(Pieces(cs), z)
    ensures EnvOf(p)(z.groupVariable) == MapDef(Read(GroupMaps(c.zones)[z.groupVariable]))
    ensures EnvOf(p)(ZoneVariable(z)) == MapDef(Read(PolicyGroupMap(z)))
  {
    var ps, m := Pieces(cs), GroupMaps(c.zones)[z.groupVariable];
    assert m.variable == z.groupVariable;
    var i :| 0 <= i < |c.groupMaps| && c.groupMaps[i] == m;
    assert Others(c.groupMaps)[i] == Other(m);
    TierPiecesMember(c.zones, z);
    hide Separate, InForce, Pieces, Deduplicated, FindMap, MapsOf, Read, PolicyGroupMap, GroupMaps, Others, TierPieces, ReadAll;
    PiecesMember(cs, c, Other(m));
    PiecesMember(cs, c, Tier(z));
    OnlyMapInForce(ps, m);
    ZoneMapInForce(ps, z);
    FindRead(Deduplicated(MapsOf(ps), {}), z.groupVariable);
    FindRead(Deduplicated(MapsOf(ps), {}), ZoneVariable(z));
  }

  /** Over every VirtualServer, route and request: a zone whose map is in force limits the
      request exactly when the request's tier on that route has the zone's policy value. */
  lemma RouteFollowsTier(p: Program, cs: seq<Context>, c: Context, z: Zone, q: Request, x: string, depth: nat)
    requires Runs(p, cs) && Separate(Pieces(cs)) && c in cs && Listed(c) && z in c.zones
    requires IsVariable(z.groupVariable) && OwnGroup(cs, c, z.groupVariable) && PlainTiers(c.zones, z.groupVariable)
    requires InForce(Pieces(cs), z)
    requires Expand(EnvOf(p), q, GroupMaps(c.zones)[z.groupVariable].source, depth) == Some(x)
    requires Expand(EnvOf(p), q, "Val" + z.policyResult, depth + 1).Some?
    ensures var tiers := Tiers(c.zones, z.groupVariable);
            var r := Value(EnvOf(p), q, ZoneVariable(z), depth + 2);
            && r.Some?
            && (r.value != "" <==> exists i :: IsTier(tiers, x, q.regex, i) && SameText(tiers[i].policyValue, z.policyValue))
  {
    hide Runs, Separate, InForce, Pieces, Listed, PlainTiers, Tiers, IsTier, Read, PolicyGroupMap, SameText, Expand, Value, EnvOf;
    TierDefinitions(p, cs, c, z);
    KeyFollowsTier(EnvOf(p), q, c.zones, z, x, depth);
  }

  // ---- every zone and every request ----

  /** The request's tier in a context has the zone's policy value. */
  ghost predicate InTier(e: Env, q: Request, c: Context, z: Zone, depth: nat)
    requires z.groupVariable in GroupMaps(c.zones)
  {
    var x, tiers := Expand(e, q, GroupMaps(c.zones)[z.groupVariable].source, depth), Tiers(c.zones, z.groupVariable);
    x.Some? && HasTier(tiers, x.value, q.regex, z)
  }

  ghost predicate HasTier(tiers: seq<Zone>, x: string, regex: (string, string) -> bool, z: Zone) {
    exists i :: IsTier(tiers, x, regex, i) && SameText(tiers[i].policyValue, z.policyValue)
  }

  /** What is asked of a zone's group and key. */
  ghost predicate Usable(p: Program, cs: seq<Context>, c: Context, z: Zone, q: Request, depth: nat) {
    && IsVariable(z.groupVariable) && OwnGroup(cs, c, z.groupVariable) && PlainTiers(c.zones, z.groupVariable)
    && Expand(EnvOf(p), q, GroupMaps(c.zones)[z.groupVariable].source, depth).Some?
    && Expand(EnvOf(p), q, "Val" + z.policyResult, depth + 1).Some?
  }

  ghost predicate AllUsable(p: Program, cs: seq<Context>, name: string, q: Request, depth: nat) {
    forall c, z :: c in cs && z in c.zones && z.groupVariable != "" && z.name == name ==> Usable(p, cs, c, z, q, depth)
  }

  lemma {:induction false} TierPiecesOrigin(zones: seq<Zone>, z: Zone)
    requires Tier(z) in TierPieces(zones)
    ensures z in zones && z.groupVariable != ""
  {
    if zones[0] != z || z.groupVariable == "" {
      TierPiecesOrigin(zones[1..], z);
    }
  }

  lemma {:induction false} PieceContext(cs: seq<Context>, z: Zone) returns (c: Context)
    requires Tier(z) in Pieces(cs)
    ensures c in cs && z in c.zones && z.groupVariable != ""
  {
    if Tier(z) in TierPieces(cs[0].zones) {
      c := cs[0];
      TierPiecesOrigin(c.zones, z);
    } else {
      c := PieceContext(cs[1..], z);
    }
  }

  /** Of all zones of one name, one is in force. */
  lemma SomeInForce(ps: seq<Piece>, z: Zone) returns (w: Zone)
    requires Tier(z) in ps
    ensures Tier(w) in ps && w.name == z.name && InForce(ps, w)
  {
    var n :| 0 <= n < |ps| && ps[n] == Tier(z);
    var i := FirstOf(ps, z, n);
    SameZoneVariable(ps[i].zone, z);
    var k := LastFirst(ps, |ps|, ZoneVariable(z));
    hide ZoneVariable, First, PolicyGroupMap;
    assert k >= 0;
    w := ps[k].zone;
    SameZoneVariable(w, z);
    forall j: nat | k < j && First(ps, j)
      ensures j < |ps| && ps[j].Tier? && ps[j].zone.name != w.name
    {
      FirstIsTier(ps, j);
      SameZoneVariable(ps[j].zone, w);
    }
    FirstIsTier(ps, k);
    assert Latest(ps, k) && SameTier(ps[k].zone, w);
  }

  /** Over every VirtualServer, zone and request: the key of a zone follows the tiers of the context
      whose map of the zone first occurs last. So it serves another context right exactly when the
      two put the request in the zone's tier alike. */
  lemma KeyFollowsLast(p: Program, cs: seq<Context>, own: Context, z: Zone, q: Request, depth: nat) returns (c: Context, w: Zone)
    requires Runs(p, cs) && Separate(Pieces(cs)) && (forall c :: c in cs ==> Listed(c))
    requires own in cs && z in own.zones && z.groupVariable != "" && AllUsable(p, cs, z.name, q, depth)
    ensures c in cs && w in c.zones && w.name == z.name && InForce(Pieces(cs), w)
    ensures z.groupVariable in GroupMaps(own.zones) && w.groupVariable in GroupMaps(c.zones)
    ensures var r := Value(EnvOf(p), q, ZoneVariable(z), depth + 2);
            && r.Some?
            && (r.value != "" <==> InTier(EnvOf(p), q, c, w, depth))
            && ((r.value != "" <==> InTier(EnvOf(p), q, own, z, depth)) <==>
                (InTier(EnvOf(p), q, own, z, depth) <==> InTier(EnvOf(p), q, c, w, depth)))
  {
    hide Runs, Separate, InForce, Pieces, Listed, PlainTiers, Tiers, IsTier, SameText, Expand, Value, EnvOf, GroupMaps, ZoneVariable, TierPieces, IsVariable, InTier;
    TierPiecesMember(own.zones, z);
    PiecesMember(cs, own, Tier(z));
    w := SomeInForce(Pieces(cs), z);
    c := PieceContext(cs, w);
    SameZoneVariable(w, z);
    assert Usable(p, cs, own, z, q, depth) && Usable(p, cs, c, w, q, depth);
    var x := Expand(EnvOf(p), q, GroupMaps(c.zones)[w.groupVariable].source, depth).value;
    RouteFollowsTier(p, cs, c, w, q, x, depth);
    InTierMeans(EnvOf(p), q, c, w, x, depth);
  }

  lemma InTierMeans(e: Env, q: Request, c: Context, z: Zone, x: string, depth: nat)
    requires z.groupVariable in GroupMaps(c.zones) && Expand(e, q, GroupMaps(c.zones)[z.groupVariable].source, depth) == Some(x)
    ensures InTier(e, q, c, z, depth) <==> HasTier(Tiers(c.zones, z.groupVariable), x, q.regex, z)
  {
    hide GroupMaps, Tiers, Expand, HasTier;
  }

  // ---- one policy on two routes ----

  lemma SomeExpansion(e: Env, q: Request, s: string, rest: string, depth: nat)
    requires Lacks(s, '$') && Expand(e, q, rest, depth).Some?
    ensures Expand(e, q, s + rest, depth).Some?
  {
    if |s| > 0 {
      assert (s + rest)[1..] == s[1..] + rest;
      SomeExpansion(e, q, s[1..], rest, depth);
    } else {
      assert s + rest == rest;
    }
  }

  lemma ExpandOwn(p: Program, q: Request, cs: seq<Context>, v: string, depth: nat)
    requires Runs(p, cs) && p.splitClients == [] && p.keyVals == [] && IsVariable(v) && depth > 0
    requires forall piece :: piece in Pieces(cs) ==> MapOf(piece).variable != v
    ensures Expand(EnvOf(p), q, v, depth) == Some(NativeValue(q, v))
  {
    var ms := MapsOf(Pieces(cs));
    PieceMaps(Pieces(cs));
    DeduplicatedSubset(ms, {});
    FindMapSpec(Deduplicated(ms, {}), v);
    FindRead(Deduplicated(ms, {}), v);
    hide Expand, Pieces, MapsOf, Deduplicated, FindMap, ReadAll;
    assert FindSplitClient([], v) == None && FindKeyVal([], v) == None;
    ExpandSingle(EnvOf(p), q, v, depth);
  }

  /** Two tiers by the same variable, the second of which is the default; `two` names the group
      of the second when it stands alone on another route. */
  ghost predicate TwoTiers(gold: Zone, basic: Zone, two: string) {
    && gold.name != basic.name && gold.groupVariable == basic.groupVariable != two
    && gold.groupSource == basic.groupSource && gold.policyResult == basic.policyResult
    && !gold.groupDefault && basic.groupDefault
    && Decode(gold.groupValue).Exact? && Decode(basic.groupValue).Exact?
    && PlainPolicyValue(gold.policyValue) && PlainPolicyValue(basic.policyValue) && !SameText(gold.policyValue, basic.policyValue)
    && IsVariable(gold.groupVariable) && IsVariable(two) && IsVariable(gold.groupSource) && IsVariable(gold.policyResult)
    && OneDollar(ZoneVariable(gold)) && OneDollar(ZoneVariable(basic))
    && gold.groupSource != gold.groupVariable && gold.groupSource != two
    && gold.policyResult != gold.groupVariable && gold.policyResult != two
    && NoKey(gold, basic, gold.groupVariable) && NoKey(gold, basic, two)
    && NoKey(gold, basic, gold.groupSource) && NoKey(gold, basic, gold.policyResult)
  }

  predicate NoKey(gold: Zone, basic: Zone, v: string) { v != ZoneVariable(gold) && v != ZoneVariable(basic) }

  function RouteOf(zones: seq<Zone>, v: string): Context { Context(zones, [GroupMap(zones, v)], []) }

  function Again(basic: Zone, two: string): Zone { basic.(groupVariable := two) }

  function TwoRoutes(gold: Zone, basic: Zone, two: string): seq<Context> {
    [RouteOf([gold, basic], gold.groupVariable), RouteOf([Again(basic, two)], two)]
  }

  function FivePieces(gold: Zone, basic: Zone, two: string): seq<Piece> {
    [Other(GroupMap([gold, basic], gold.groupVariable)), Tier(gold), Tier(basic),
     Other(GroupMap([Again(basic, two)], two)), Tier(Again(basic, two))]
  }

  lemma OneTierPiece(z: Zone)
    requires z.groupVariable != ""
    ensures TierPieces([z]) == [Tier(z)]
  {
    assert [z][1..] == [];
  }

  lemma TwoRoutesPieces(gold: Zone, basic: Zone, two: string)
    requires gold.groupVariable != "" && basic.groupVariable != "" && two != ""
    ensures Pieces(TwoRoutes(gold, basic, two)) == FivePieces(gold, basic, two)
  {
    hide GroupMap;
    var again := Again(basic, two);
    OneTierPiece(basic);
    OneTierPiece(again);
    assert [gold, basic][1..] == [basic];
    assert TierPieces([gold, basic]) == [Tier(gold), Tier(basic)];
    var cs := TwoRoutes(gold, basic, two);
    assert cs[1..] == [cs[1]] && [cs[1]][1..] == [];
    assert Pieces([cs[1]]) == [Other(GroupMap([again], two)), Tier(again)];
  }

  lemma {:induction false} OneGroup(zones: seq<Zone>, v: string)
    requires forall z :: z in zones ==> z.groupVariable == v
    ensures Tiers(zones, v) == zones
  {
    if |zones| > 0 {
      OneGroup(zones[..|zones| - 1], v);
      assert zones[|zones| - 1] in zones;
      assert zones == zones[..|zones| - 1] + [zones[|zones| - 1]];
    }
  }

  lemma OneGroupListed(zones: seq<Zone>, v: string)
    requires |zones| > 0 && v != "" && forall z :: z in zones ==> z.groupVariable == v
    ensures GroupMaps(zones) == map[v := GroupMap(zones, v)] && Listed(RouteOf(zones, v))
  {
    OneGroup(zones, v);
    GroupMapVariable(zones, v);
    hide GroupMap, Tiers;
    assert zones[0] in zones;
    assert Variables(zones) == {v};
    assert GroupMaps(zones) == map[v := GroupMap(zones, v)];
    hide GroupMaps;
  }

  lemma FivePiece(gold: Zone, basic: Zone, two: string, p: Piece)
    requires p in FivePieces(gold, basic, two)
    ensures p.Other? ==> p.m.variable == gold.groupVariable || (p.m.variable == two && p.m == GroupMap([Again(basic, two)], two))
    ensures p.Tier? ==> p.zone == gold || p.zone == basic || p.zone == Again(basic, two)
  {
    GroupMapVariable([gold, basic], gold.groupVariable);
    GroupMapVariable([Again(basic, two)], two);
    hide GroupMap;
  }

  /** The variables of the five maps. */
  lemma FiveVariable(gold: Zone, basic: Zone, two: string, p: Piece)
    requires p in FivePieces(gold, basic, two)
    ensures var v := MapOf(p).variable; v == gold.groupVariable || v == two || v == ZoneVariable(gold) || v == ZoneVariable(basic)
  {
    FivePiece(gold, basic, two, p);
    SameZoneVariable(gold, basic);
    SameZoneVariable(basic, Again(basic, two));
    hide FivePieces, PolicyGroupMap, GroupMap;
  }

  lemma FiveSeparate(gold: Zone, basic: Zone, two: string)
    requires TwoTiers(gold, basic, two)
    ensures Separate(FivePieces(gold, basic, two))
  {
    hide GroupMap, Decode, PlainPolicyValue, SameText, OneDollar, IsVariable, ZoneVariable, PolicyGroupMap, FivePieces, MapOf;
    var ps := FivePieces(gold, basic, two);
    VariableHasOneDollar(gold.groupVariable);
    VariableHasOneDollar(two);
    SameZoneVariable(basic, Again(basic, two));
    forall p | p in ps ensures OneDollar(MapOf(p).variable) {
      FiveVariable(gold, basic, two, p);
    }
    forall p, p' | p in ps && p' in ps && p.Tier? && p'.Other? ensures p'.m.variable != ZoneVariable(p.zone) {
      FivePiece(gold, basic, two, p);
      FivePiece(gold, basic, two, p');
    }
    forall p, p' | p in ps && p' in ps && p.Tier? && p'.Tier? && SameTier(p.zone, p'.zone)
      ensures PolicyGroupMap(p.zone) == PolicyGroupMap(p'.zone)
    {
      FivePiece(gold, basic, two, p);
      FivePiece(gold, basic, two, p');
    }
  }

  lemma TwoRoutesSeparate(gold: Zone, basic: Zone, two: string)
    requires TwoTiers(gold, basic, two)
    ensures var ps := FivePieces(gold, basic, two); Separate(ps) && InForce(ps, Again(basic, two)) && !InForce(ps, basic)
  {
    FiveSeparate(gold, basic, two);
    hide Separate, TwoTiers, FivePieces, Latest, First;
    var ps := FivePieces(gold, basic, two);
    FiveInForce(gold, basic, two);
    forall i: nat | First(ps, i) && SameTier(ps[i].zone, basic) ensures i == 2 {
      FirstIsOne(ps, i, 2);
    }
  }

  lemma FiveInForce(gold: Zone, basic: Zone, two: string)
    requires TwoTiers(gold, basic, two)
    ensures var ps := FivePieces(gold, basic, two);
            && |ps| == 5 && First(ps, 2) && First(ps, 4) && !Latest(ps, 2) && Latest(ps, 4)
            && SameTier(ps[2].zone, basic) && SameTier(ps[4].zone, Again(basic, two))
  {
    assert gold.name != basic.name && basic.groupVariable != two;
    hide GroupMap, Decode, PlainPolicyValue, SameText, OneDollar, IsVariable, ZoneVariable, PolicyGroupMap, TwoTiers, NoKey;
    var ps := FivePieces(gold, basic, two);
    assert ps[1] == Tier(gold) && ps[2] == Tier(basic) && ps[4] == Tier(Again(basic, two)) && ps[0].Other? && ps[3].Other?;
  }

  lemma GroupMapVariable(zones: seq<Zone>, v: string)
    ensures GroupMap(zones, v).variable == v
    ensures |zones| > 0 ==> GroupMap(zones, v).source == zones[|zones| - 1].groupSource
  {
  }

  lemma TierOfTwo(gold: Zone, basic: Zone, two: string, x: string, regex: (string, string) -> bool)
    requires TwoTiers(gold, basic, two) && ByText(gold, x) && !ByText(basic, x)
    ensures IsTier([gold, basic], x, regex, 0)
    ensures IsTier([Again(basic, two)], x, regex, 0)
  {
    var tiers, alone := [gold, basic], [Again(basic, two)];
    assert !ByText(alone[0], x) && !ByRegex(alone[0], x, regex) && IsDefault(alone[0]);
    hide ByText, ByRegex, IsDefault, SameText, OneDollar, IsVariable, ZoneVariable, PlainPolicyValue;
    assert ByText(tiers[0], x) && NoneFrom(tiers, 1, x);
  }

  lemma SecondRoute(gold: Zone, basic: Zone, two: string)
    requires TwoTiers(gold, basic, two)
    ensures var cs, again := TwoRoutes(gold, basic, two), Again(basic, two);
            && OwnGroup(cs, RouteOf([again], two), two) && PlainTiers([again], two)
            && GroupMaps([again])[two].source == gold.groupSource
    ensures Untouched(gold, basic, two, gold.groupSource) && Untouched(gold, basic, two, gold.policyResult)
  {
    hide Decode, SameText, OneDollar, Pieces, GroupMaps, Tiers, GroupMap, ZoneVariable, PolicyGroupMap, FivePieces, PlainPolicyValue;
    var ps, again := FivePieces(gold, basic, two), Again(basic, two);
    OneGroup([again], two);
    OneGroupListed([again], two);
    TwoRoutesPieces(gold, basic, two);
    GroupMapVariable([again], two);
    SameZoneVariable(gold, basic);
    SameZoneVariable(basic, gold);
    SameZoneVariable(again, basic);
    forall p | p in ps
      ensures MapOf(p).variable != gold.groupSource && MapOf(p).variable != gold.policyResult
      ensures MapOf(p).variable == two ==> MapOf(p) == GroupMap([again], two)
    {
      FivePiece(gold, basic, two, p);
      FiveVariable(gold, basic, two, p);
    }
  }

  ghost predicate Untouched(gold: Zone, basic: Zone, two: string, v: string) {
    forall piece :: piece in Pieces(TwoRoutes(gold, basic, two)) ==> MapOf(piece).variable != v
  }

  /** A request whose value names the first tier is also limited by the zone of the default tier
      on the first route, because the second route names that policy as well. */
  lemma EarlierRouteMisled(q: Request, gold: Zone, basic: Zone, two: string)
    requires TwoTiers(gold, basic, two)
    requires var x := NativeValue(q, gold.groupSource); ByText(gold, x) && !ByText(basic, x)
    ensures var p := Program(ReadAll(Deduplicated(MapsOf(Pieces(TwoRoutes(gold, basic, two))), {})), [], []);
            var r := Value(EnvOf(p), q, ZoneVariable(basic), 3);
            r.Some? && r.value != ""
    ensures var tiers := Tiers([gold, basic], gold.groupVariable);
            && tiers == [gold, basic] && IsTier(tiers, NativeValue(q, gold.groupSource), q.regex, 0)
            && !SameText(gold.policyValue, basic.policyValue)
  {
    hide Pieces, ReadAll, Deduplicated, MapsOf, Value, Expand, Separate, InForce, FivePieces, IsTier, Tiers, GroupMaps, GroupMap, Listed, SameText, EnvOf, MapOf, Decode, OneDollar, IsVariable, ZoneVariable, PlainPolicyValue, OwnGroup, PlainTiers, ByText;
    var cs, again, x := TwoRoutes(gold, basic, two), Again(basic, two), NativeValue(q, gold.groupSource);
    var p := Program(ReadAll(Deduplicated(MapsOf(Pieces(cs)), {})), [], []);
    assert gold.groupVariable != "" && two != "" by {
      NamedVariable(gold.groupVariable);
      NamedVariable(two);
    }
    TwoRoutesPieces(gold, basic, two);
    TwoRoutesSeparate(gold, basic, two);
    OneGroup([gold, basic], gold.groupVariable);
    OneGroup([again], two);
    OneGroupListed([again], two);
    TierOfTwo(gold, basic, two, x, q.regex);
    SecondRoute(gold, basic, two);
    ExpandOwn(p, q, cs, gold.groupSource, 1);
    ExpandOwn(p, q, cs, gold.policyResult, 2);
    SomeExpansion(EnvOf(p), q, "Val", gold.policyResult, 2);
    SameIsSame(again.policyValue);
    RouteFollowsTier(p, cs, RouteOf([again], two), again, q, x, 1);
    SameZoneVariable(basic, again);
  }

  lemma NamedVariable(v: string)
    requires IsVariable(v)
    ensures v != ""
  {
  }

  lemma SameIsSame(s: string)
    ensures SameText(s, s)
  {
  }

  /** Such policies exist. */
  lemma MisleadingExample() returns (gold: Zone, basic: Zone)
    ensures TwoTiers(gold, basic, "$c") && ByText(gold, "gold") && !ByText(basic, "gold")
  {
    gold := Zone("g", "$a", "$t", "\"" + "gold" + "\"", false, "rl_gold", "$k");
    basic := Zone("b", "$a", "$t", "\"" + "basic" + "\"", true, "rl_b", "$k");
    hide Decode, SameText, PlainPolicyValue, IsVariable, OneDollar;
    ExampleValue("gold");
    ExampleValue("basic");
    SameLength("rl_gold", "rl_b");
    SameLength("basic", "gold");
    SameIsSame("gold");
    ExamplePolicyValue("rl_gold");
    ExamplePolicyValue("rl_b");
    LetterVariable('a');
    LetterVariable('c');
    LetterVariable('t');
    LetterVariable('k');
    LetterVariable('g');
    LetterVariable('b');
    assert ZoneVariable(gold) == ['$', 'g'] && ZoneVariable(basic) == ['$', 'b'];
    assert "$a" == ['$', 'a'] && "$c" == ['$', 'c'] && "$t" == ['$', 't'] && "$k" == ['$', 'k'];
  }

  lemma LetterVariable(c: char)
    requires 'a' <= c <= 'z'
    ensures IsVariable(['$', c]) && OneDollar(['$', c])
  {
    assert ['$', c][1..] == [c];
  }

  lemma ExampleValue(s: string)
    requires |s| > 0 && s[0] in {'g', 'b'}
    ensures Decode("\"" + s + "\"") == Exact(s)
  {
    assert ("\"" + s + "\"")[1..|s| + 1] == s;
    assert "default"[0] == 'd' && "hostnames"[0] == 'h' && "include"[0] == 'i' && "volatile"[0] == 'v';
  }

  lemma ExamplePolicyValue(s: string)
    requires |s| > 2 && s[..3] == "rl_" && Lacks(s, '$')
    ensures PlainPolicyValue(s)
  {
    assert s[0] == s[..3][0] && s[1] == s[..3][1] && s[2] == s[..3][2];
  }
}
