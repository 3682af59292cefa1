/** The generating loops themselves: each appends to its lists and advances its counters
    step by step, and is proved to build exactly what the specification functions say. */
module Generator {
  import opened Text
  import opened Nginx
  import opened Routes
  import opened Compile
  import opened Layout
  import opened Definitions
  import opened VirtualServers

  /** What generating one route contributes. */
  datatype RoutingCfg = RoutingCfg(
    maps: seq<Map>,
    splitClients: seq<SplitClient>,
    keyVals: seq<KeyVal>,
    twoWay: seq<TwoWaySplitClients>,
    redirects: seq<InternalRedirect>,
    locations: seq<Location>,
    named: seq<NamedLocation>)

  function RoutingOf(st: Settings, place: Place, r: Route, mi: nat, sc: nat, ret: nat): RoutingCfg {
    var gs, items := RouteGroups(st, r, sc), RouteItems(st, place, r, mi, sc);
    RoutingCfg(RouteMaps(st, r, mi, sc), ClientsOf(st, gs), KeyValsOf(st, gs), TwoWayOf(st, gs),
               RouteRedirect(st, r, mi, sc), Locations(st, items, ret), Returns(st, items, ret))
  }

  // ---- concatenation ----

  lemma {:induction false} GroupsConcat(st: Settings, a: seq<Group>, b: seq<Group>)
    ensures ClientsOf(st, a + b) == ClientsOf(st, a) + ClientsOf(st, b)
    ensures KeyValsOf(st, a + b) == KeyValsOf(st, a) + KeyValsOf(st, b)
    ensures TwoWayOf(st, a + b) == TwoWayOf(st, a) + TwoWayOf(st, b)
    ensures MapsOf(st, a + b) == MapsOf(st, a) + MapsOf(st, b)
  {
    hide GroupClients, GroupKeyVals, GroupTwoWay, GroupMaps;
    if |a| == 0 {
      assert a + b == b;
    } else {
      assert (a + b)[1..] == a[1..] + b;
      GroupsConcat(st, a[1..], b);
    }
  }

  lemma {:induction false} ItemsConcat(st: Settings, a: seq<Item>, b: seq<Item>, ret: nat)
    ensures var ret' := ret + |Returns(st, a, ret)|;
            && Locations(st, a + b, ret) == Locations(st, a, ret) + Locations(st, b, ret')
            && Returns(st, a + b, ret) == Returns(st, a, ret) + Returns(st, b, ret')
  {
    hide GenerateItem;
    if |a| == 0 {
      assert a + b == b;
    } else {
      assert (a + b)[0] == a[0] && (a + b)[1..] == a[1..] + b;
      ItemsConcat(st, a[1..], b, if GenerateItem(st, a[0], ret).1.Some? then ret + 1 else ret);
    }
  }

  lemma OneGroup(st: Settings, g: Group)
    ensures ClientsOf(st, [g]) == GroupClients(st, g) && KeyValsOf(st, [g]) == GroupKeyVals(st, g)
    ensures TwoWayOf(st, [g]) == GroupTwoWay(st, g) && MapsOf(st, [g]) == GroupMaps(st, g)
  {
    hide GroupClients, GroupKeyVals, GroupTwoWay, GroupMaps;
    assert [g][1..] == [];
    assert ClientsOf(st, []) == [] && KeyValsOf(st, []) == [] && TwoWayOf(st, []) == [] && MapsOf(st, []) == [];
  }

  lemma OneItem(st: Settings, x: Item, ret: nat)
    ensures Locations(st, [x], ret) == [GenerateItem(st, x, ret).0]
    ensures Returns(st, [x], ret) ==
            match GenerateItem(st, x, ret).1
            case None => []
            case Some(n) => [n]
  {
    hide GenerateItem;
    assert [x][1..] == [];
    assert forall r: nat :: Locations(st, [], r) == [] && Returns(st, [], r) == [];
  }

  // ---- splits ----

  /** The 101 split clients for all pairs of weights, and the map that picks among them. */
  method GenerateWeightClients(st: Settings, splits: seq<Split>, sc: nat)
    returns (clients: seq<SplitClient>, m: Map)
    requires |splits| == 2
    ensures clients == WeightClients(st, sc) && m == WeightMap(st, sc, splits)
  {
    clients := [];
    var params: seq<Parameter> := [];
    var i := 0;
    while i <= 100
      invariant 0 <= i <= 101
      invariant clients == WeightClients(st, sc)[..i]
      invariant params == WeightParameters(st, sc)[..i]
    {
      var j := 100 - i;
      var distributions: seq<Distribution> := [];
      if i > 0 {
        distributions := distributions + [Distribution(i, st.namer.path(SplitSpot(sc, 0)))];
      }
      if j > 0 {
        distributions := distributions + [Distribution(j, st.namer.path(SplitSpot(sc, 1)))];
      }
      assert distributions == WeightDistributions(st, sc, i, j);
      clients := clients + [SplitClient("$request_id", st.namer.variable(Weighted(sc, i, j)), distributions)];
      params := params + [Parameter(st.namer.weightKey(sc, i, j), st.namer.variable(Weighted(sc, i, j)))];
      i := i + 1;
    }
    var result := if splits[0].weight < splits[1].weight then st.namer.variable(Weighted(sc, 0, 100))
                  else st.namer.variable(Weighted(sc, 100, 0));
    params := params + [Parameter("default", result)];
    m := Map(st.namer.variable(Keyval(sc)), st.namer.variable(SplitMap(sc)), params);
  }

  method GenerateDistributions(st: Settings, splits: seq<Split>, sc: nat) returns (ds: seq<Distribution>)
    ensures ds == Distributions(st, splits, sc, 0)
  {
    ds := [];
    var i := 0;
    while i < |splits|
      invariant 0 <= i <= |splits|
      invariant ds + Distributions(st, splits, sc, i) == Distributions(st, splits, sc, 0)
    {
      if splits[i].weight != 0 {
        ds := ds + [Distribution(splits[i].weight, st.namer.path(SplitSpot(sc, i)))];
      }
      i := i + 1;
    }
  }

  method GenerateSplits(st: Settings, place: Place, splits: seq<Split>, sc: nat, ret: nat)
    returns (clients: seq<SplitClient>, locs: seq<Location>, named: seq<NamedLocation>, maps: seq<Map>,
             kvs: seq<KeyVal>, twoWay: seq<TwoWaySplitClients>)
    requires |splits| > 0
    ensures clients == GroupClients(st, Group(sc, splits)) && maps == GroupMaps(st, Group(sc, splits))
    ensures kvs == GroupKeyVals(st, Group(sc, splits)) && twoWay == GroupTwoWay(st, Group(sc, splits))
    ensures locs == Locations(st, GroupItems(place, Group(sc, splits)), ret)
    ensures named == Returns(st, GroupItems(place, Group(sc, splits)), ret)
  {
    clients, maps, kvs, twoWay := [], [], [], [];
    var distributions := GenerateDistributions(st, splits, sc);
    if st.dynamic && |splits| == 2 {
      var scs, weightMap := GenerateWeightClients(st, splits, sc);
      clients := clients + scs;
      maps := maps + [weightMap];
      var key, v, zone := st.namer.keyvalKey(sc), st.namer.variable(Keyval(sc)), st.namer.zone(sc);
      kvs := kvs + [KeyVal(key, v, zone)];
      twoWay := twoWay + [TwoWaySplitClients(key, v, zone, (splits[0].weight, splits[1].weight), sc)];
    } else {
      clients := clients + [SplitClient("$request_id", st.namer.variable(Splits(sc)), distributions)];
    }
    locs, named := GenerateSplitLocations(st, place, splits, sc, ret);
  }

  method GenerateSplitLocations(st: Settings, place: Place, splits: seq<Split>, sc: nat, ret: nat)
    returns (locs: seq<Location>, named: seq<NamedLocation>)
    ensures locs == Locations(st, GroupItems(place, Group(sc, splits)), ret)
    ensures named == Returns(st, GroupItems(place, Group(sc, splits)), ret)
  {
    hide *;
    ghost var items := GroupItems(place, Group(sc, splits));
    locs, named := [], [];
    var i := 0;
    NoItems(st, ret);
    assert items[..0] == [];
    while i < |splits|
      invariant 0 <= i <= |splits|
      invariant locs == Locations(st, items[..i], ret)
      invariant named == Returns(st, items[..i], ret)
    {
      var g := GenerateLocation(place, st.namer.path(SplitSpot(sc, i)), splits[i].action, ret + |named|);
      SplitItem(st, place, splits, sc, i, ret + |named|);
      assert items[..i + 1] == items[..i] + [items[i]];
      ItemsConcat(st, items[..i], [items[i]], ret);
      OneItem(st, items[i], ret + |named|);
      locs := locs + [g.0];
      if g.1.Some? {
        named := named + [g.1.value];
      } else {
        assert named + [] == named;
      }
      i := i + 1;
    }
    assert items[..i] == items;
  }

  lemma NoItems(st: Settings, ret: nat)
    ensures Locations(st, [], ret) == [] && Returns(st, [], ret) == []
  {
  }

  lemma SplitItem(st: Settings, place: Place, splits: seq<Split>, sc: nat, i: nat, ret: nat)
    requires i < |splits|
    ensures var items := GroupItems(place, Group(sc, splits));
            GenerateItem(st, items[i], ret) == GenerateLocation(place, st.namer.path(SplitSpot(sc, i)), splits[i].action, ret)
  {
    hide GenerateLocation;
  }

  // ---- matches ----

  method GenerateMatchMaps(st: Settings, cs: seq<Condition>, mi: nat, i: nat) returns (maps: seq<Map>)
    ensures maps == MatchMaps(st, mi, i, cs)
  {
    maps := [];
    var j := 0;
    while j < |cs|
      invariant 0 <= j <= |cs|
      invariant maps == MatchMaps(st, mi, i, cs)[..j]
    {
      var success := "1";
      if j < |cs| - 1 {
        success := st.namer.variable(Cond(mi, i, j + 1));
      }
      maps := maps + [Map(Subject(cs[j]), st.namer.variable(Cond(mi, i, j)), ConditionParameters(cs[j].value, success))];
      j := j + 1;
    }
  }

  method GenerateConditionMaps(st: Settings, ms: seq<Match>, mi: nat) returns (maps: seq<Map>)
    ensures maps == ConditionMaps(st, mi, ms, 0)
  {
    maps := [];
    var i := 0;
    while i < |ms|
      invariant 0 <= i <= |ms|
      invariant maps + ConditionMaps(st, mi, ms, i) == ConditionMaps(st, mi, ms, 0)
    {
      hide MatchMaps;
      var more := GenerateMatchMaps(st, ms[i].conditions, mi, i);
      maps := maps + more;
      i := i + 1;
    }
  }

  /** The first pass over the splits: it only computes the indices they will get. */
  method GenerateMainMap(st: Settings, r: Route, mi: nat, sc: nat) returns (m: Map)
    ensures m == MainMap(st, r, mi, sc)
  {
    var ms := r.matches;
    var scLocal := 0;
    var source := "";
    var params: seq<Parameter> := [];
    var i := 0;
    while i < |ms|
      invariant 0 <= i <= |ms|
      invariant source + MainSource(st, mi, |ms|, i) == MainSource(st, mi, |ms|, 0)
      invariant params == MainParameters(st, ms, mi, sc)[..i]
      invariant sc + scLocal == GroupIndex(st, ms, i, sc)
    {
      source := source + st.namer.variable(Cond(mi, i, 0));
      var result := st.namer.path(MatchSpot(mi, i));
      if |ms[i].splits| > 0 {
        if st.dynamic && |ms[i].splits| == 2 {
          result := st.namer.variable(SplitMap(sc + scLocal));
          scLocal := scLocal + WEIGHT_CLIENTS;
        } else {
          result := st.namer.variable(Splits(sc + scLocal));
          scLocal := scLocal + 1;
        }
      }
      params := params + [Parameter("~^" + Zeros(i) + "1", result)];
      i := i + 1;
    }
    var defaultResult := st.namer.path(DefaultSpot(mi));
    if |r.splits| > 0 {
      if st.dynamic && |r.splits| == 2 {
        defaultResult := st.namer.variable(SplitMap(sc + scLocal));
      } else {
        defaultResult := st.namer.variable(Splits(sc + scLocal));
      }
    }
    params := params + [Parameter("default", defaultResult)];
    m := Map(source, st.namer.variable(Main(mi)), params);
  }

  /** What the second pass has collected so far. */
  datatype Acc = Acc(
    maps: seq<Map>, clients: seq<SplitClient>, kvs: seq<KeyVal>, twoWay: seq<TwoWaySplitClients>,
    locs: seq<Location>, named: seq<NamedLocation>)

  function AccOf(st: Settings, gs: seq<Group>, items: seq<Item>, ret: nat): Acc {
    Acc(MapsOf(st, gs), ClientsOf(st, gs), KeyValsOf(st, gs), TwoWayOf(st, gs),
        Locations(st, items, ret), Returns(st, items, ret))
  }

  method AddGroup(st: Settings, place: Place, acc: Acc, splits: seq<Split>, sc: nat, ret: nat,
                  ghost gs: seq<Group>, ghost items: seq<Item>)
    returns (r: Acc)
    requires |splits| > 0 && acc == AccOf(st, gs, items, ret)
    ensures r == AccOf(st, gs + [Group(sc, splits)], items + GroupItems(place, Group(sc, splits)), ret)
    ensures |r.clients| == |acc.clients| + Width(st, splits)
  {
    hide GroupClients, GroupKeyVals, GroupTwoWay, GroupMaps, GroupItems, ClientsOf, KeyValsOf, TwoWayOf, MapsOf, Locations, Returns;
    var scs, locs, named, mps, kvs, twscs := GenerateSplits(st, place, splits, sc, ret + |acc.named|);
    r := Acc(acc.maps + mps, acc.clients + scs, acc.kvs + kvs, acc.twoWay + twscs, acc.locs + locs, acc.named + named);
    GroupsConcat(st, gs, [Group(sc, splits)]);
    OneGroup(st, Group(sc, splits));
    ItemsConcat(st, items, GroupItems(place, Group(sc, splits)), ret);
  }

  method AddLocation(st: Settings, acc: Acc, item: Item, ret: nat, ghost gs: seq<Group>, ghost items: seq<Item>)
    returns (r: Acc)
    requires acc == AccOf(st, gs, items, ret)
    ensures r == AccOf(st, gs, items + [item], ret)
  {
    hide GenerateLocation, ClientsOf, KeyValsOf, TwoWayOf, MapsOf, Locations, Returns;
    var g := GenerateLocation(item.place, PathOf(st, item.at), item.action, ret + |acc.named|);
    r := acc.(locs := acc.locs + [g.0]);
    if g.1.Some? {
      r := r.(named := r.named + [g.1.value]);
    }
    ItemsConcat(st, items, [item], ret);
    OneItem(st, item, ret + |acc.named|);
  }

  /** One match of the second pass. */
  method AddMatch(st: Settings, place: Place, acc: Acc, ms: seq<Match>, i: nat, mi: nat, sc: nat, scLocal: nat, ret: nat,
                  ghost gs: seq<Group>, ghost items: seq<Item>)
    returns (r: Acc)
    requires i < |ms| && acc == AccOf(st, gs, items, ret) && sc + scLocal == GroupIndex(st, ms, i, sc)
    ensures r == AccOf(st, gs + MatchGroup(st, ms, i, sc), items + MatchItems(st, place, ms, i, mi, sc), ret)
    ensures |r.clients| == |acc.clients| + Width(st, ms[i].splits)
  {
    hide GroupItems, GenerateLocation, ClientsOf, KeyValsOf, TwoWayOf, MapsOf, Locations, Returns;
    if |ms[i].splits| > 0 {
      r := AddGroup(st, place, acc, ms[i].splits, sc + scLocal, ret, gs, items);
    } else {
      r := AddLocation(st, acc, Item(place, Internal(MatchSpot(mi, i)), ms[i].action), ret, gs, items);
      assert gs + [] == gs;
    }
  }

  lemma Regroup<T>(a: seq<T>, b: seq<T>, c: seq<T>)
    ensures (a + b) + c == a + (b + c)
  {
  }

  lemma NextMatch(st: Settings, place: Place, ms: seq<Match>, i: nat, mi: nat, sc: nat)
    requires i < |ms|
    ensures MatchGroups(st, ms, i, sc) == MatchGroup(st, ms, i, sc) + MatchGroups(st, ms, i + 1, sc)
    ensures AllMatchItems(st, place, ms, i, mi, sc) ==
            MatchItems(st, place, ms, i, mi, sc) + AllMatchItems(st, place, ms, i + 1, mi, sc)
    ensures GroupIndex(st, ms, i + 1, sc) == GroupIndex(st, ms, i, sc) + Width(st, ms[i].splits)
  {
  }

  lemma NothingLeft(st: Settings, place: Place, ms: seq<Match>, mi: nat, sc: nat)
    ensures MatchGroups(st, ms, |ms|, sc) == [] && AllMatchItems(st, place, ms, |ms|, mi, sc) == []
  {
  }

  /** The second pass over the matches: it generates the splits, counting the split clients
      it really makes. */
  lemma NothingYet(st: Settings, ms: seq<Match>, sc: nat, ret: nat)
    ensures AccOf(st, [], [], ret) == Acc([], [], [], [], [], []) && GroupIndex(st, ms, 0, sc) == sc
  {
  }

  method GenerateAllMatches(st: Settings, place: Place, ms: seq<Match>, mi: nat, sc: nat, ret: nat)
    returns (acc: Acc, scLocal: nat)
    ensures acc == AccOf(st, MatchGroups(st, ms, 0, sc), AllMatchItems(st, place, ms, 0, mi, sc), ret)
    ensures sc + scLocal == GroupIndex(st, ms, |ms|, sc)
  {
    hide AccOf, MatchGroup, MatchItems, MatchGroups, AllMatchItems, GroupIndex;
    ghost var gs: seq<Group>, items: seq<Item> := [], [];
    acc := Acc([], [], [], [], [], []);
    scLocal := 0;
    NothingYet(st, ms, sc, ret);
    assert [] + MatchGroups(st, ms, 0, sc) == MatchGroups(st, ms, 0, sc);
    assert [] + AllMatchItems(st, place, ms, 0, mi, sc) == AllMatchItems(st, place, ms, 0, mi, sc);
    var i := 0;
    while i < |ms|
      invariant 0 <= i <= |ms|
      invariant acc == AccOf(st, gs, items, ret)
      invariant gs + MatchGroups(st, ms, i, sc) == MatchGroups(st, ms, 0, sc)
      invariant items + AllMatchItems(st, place, ms, i, mi, sc) == AllMatchItems(st, place, ms, 0, mi, sc)
      invariant sc + scLocal == GroupIndex(st, ms, i, sc)
      invariant scLocal == |acc.clients|
    {
      acc := AddMatch(st, place, acc, ms, i, mi, sc, scLocal, ret, gs, items);
      NextMatch(st, place, ms, i, mi, sc);
      Regroup(gs, MatchGroup(st, ms, i, sc), MatchGroups(st, ms, i + 1, sc));
      Regroup(items, MatchItems(st, place, ms, i, mi, sc), AllMatchItems(st, place, ms, i + 1, mi, sc));
      gs, items := gs + MatchGroup(st, ms, i, sc), items + MatchItems(st, place, ms, i, mi, sc);
      scLocal := |acc.clients|;
      i := i + 1;
    }
    NothingLeft(st, place, ms, mi, sc);
    assert gs + [] == gs && items + [] == items;
  }

  method GenerateMatchLocations(st: Settings, place: Place, r: Route, mi: nat, sc: nat, ret: nat) returns (acc: Acc)
    requires |r.matches| > 0
    ensures acc == AccOf(st, RouteGroups(st, r, sc), RouteItems(st, place, r, mi, sc), ret)
  {
    hide AccOf, AllMatchItems, MatchGroups, GroupItems, GroupIndex;
    var scLocal;
    acc, scLocal := GenerateAllMatches(st, place, r.matches, mi, sc, ret);
    ghost var gs, items := MatchGroups(st, r.matches, 0, sc), AllMatchItems(st, place, r.matches, 0, mi, sc);
    if |r.splits| > 0 {
      acc := AddGroup(st, place, acc, r.splits, sc + scLocal, ret, gs, items);
    } else {
      acc := AddLocation(st, acc, Item(place, Internal(DefaultSpot(mi)), r.action), ret, gs, items);
      assert gs + [] == gs;
    }
  }

  // ---- a route ----

  method GenerateMatchesConfig(st: Settings, place: Place, r: Route, mi: nat, sc: nat, ret: nat) returns (cfg: RoutingCfg)
    requires |r.matches| > 0
    ensures cfg == RoutingOf(st, place, r, mi, sc, ret)
  {
    hide ConditionMaps, MainMap, MapsOf, ClientsOf, KeyValsOf, TwoWayOf, Locations, Returns, RouteGroups, RouteItems;
    var maps := GenerateConditionMaps(st, r.matches, mi);
    var mainMap := GenerateMainMap(st, r, mi, sc);
    maps := maps + [mainMap];
    var acc := GenerateMatchLocations(st, place, r, mi, sc, ret);
    maps := maps + acc.maps;
    var redirect := InternalRedirect(GeneratePath(r.path), st.namer.variable(Main(mi)));
    cfg := RoutingCfg(maps, acc.clients, acc.kvs, acc.twoWay, [redirect], acc.locs, acc.named);
  }

  method GenerateDefaultSplitsConfig(st: Settings, place: Place, r: Route, mi: nat, sc: nat, ret: nat) returns (cfg: RoutingCfg)
    requires |r.matches| == 0 && |r.splits| > 0
    ensures cfg == RoutingOf(st, place, r, mi, sc, ret)
  {
    hide GroupClients, GroupKeyVals, GroupTwoWay, GroupMaps, GroupItems, MapsOf, ClientsOf, KeyValsOf, TwoWayOf, Locations, Returns;
    var scs, locs, named, maps, kvs, twoWay := GenerateSplits(st, place, r.splits, sc, ret);
    var destination := if st.dynamic && |r.splits| == 2 then st.namer.variable(SplitMap(sc)) else st.namer.variable(Splits(sc));
    cfg := RoutingCfg(maps, scs, kvs, twoWay, [InternalRedirect(GeneratePath(r.path), destination)], locs, named);
    OneGroup(st, Group(sc, r.splits));
    assert RouteGroups(st, r, sc) == [Group(sc, r.splits)];
    assert RouteItems(st, place, r, mi, sc) == GroupItems(place, Group(sc, r.splits));
    assert RouteMaps(st, r, mi, sc) == maps;
  }

  method GenerateRoute(st: Settings, place: Place, r: Route, mi: nat, sc: nat, ret: nat) returns (cfg: RoutingCfg)
    ensures cfg == RoutingOf(st, place, r, mi, sc, ret)
  {
    if |r.matches| > 0 {
      cfg := GenerateMatchesConfig(st, place, r, mi, sc, ret);
    } else if |r.splits| > 0 {
      cfg := GenerateDefaultSplitsConfig(st, place, r, mi, sc, ret);
    } else {
      var g := GenerateLocation(place, r.path, r.action, ret);
      cfg := RoutingCfg([], [], [], [], [], [g.0], if g.1.Some? then [g.1.value] else []);
      hide GenerateLocation;
      var item := Item(place, External(r.path), r.action);
      OneItem(st, item, ret);
      assert RouteGroups(st, r, sc) == [];
      assert RouteItems(st, place, r, mi, sc) == [item];
      assert RouteMaps(st, r, mi, sc) == [];
    }
  }

  // ---- the whole VirtualServer ----

  function JobsWidth(st: Settings, jobs: seq<Job>): nat {
    if |jobs| == 0 then 0 else RouteWidth(st, jobs[0].route) + JobsWidth(st, jobs[1..])
  }

  lemma {:induction false} LayAppend(st: Settings, jobs: seq<Job>, j: Job, mi: nat, sc: nat)
    ensures Lay(st, jobs + [j], mi, sc) ==
            Lay(st, jobs, mi, sc) + [Placed(j, mi + MatchesRoutes(jobs), sc + JobsWidth(st, jobs))]
  {
    hide RouteWidth;
    if |jobs| == 0 {
      assert jobs + [j] == [j] && [j][1..] == [];
    } else {
      assert (jobs + [j])[0] == jobs[0] && (jobs + [j])[1..] == jobs[1..] + [j];
      LayAppend(st, jobs[1..], j, NextMatches(mi, jobs[0].route), sc + RouteWidth(st, jobs[0].route));
    }
  }

  lemma {:induction false} TotalWidthConcat(st: Settings, a: seq<Group>, b: seq<Group>)
    ensures TotalWidth(st, a + b) == TotalWidth(st, a) + TotalWidth(st, b)
  {
    hide Width;
    if |a| == 0 {
      assert a + b == b;
    } else {
      assert (a + b)[1..] == a[1..] + b;
      TotalWidthConcat(st, a[1..], b);
    }
  }

  lemma {:induction false} LayWidth(st: Settings, jobs: seq<Job>, mi: nat, sc: nat)
    ensures TotalWidth(st, GroupsOf(st, Lay(st, jobs, mi, sc))) == JobsWidth(st, jobs)
  {
    hide RouteGroups, RouteWidth;
    var pls := Lay(st, jobs, mi, sc);
    if |jobs| > 0 {
      var r := jobs[0].route;
      var gs, rest := RouteGroups(st, r, sc), Lay(st, jobs[1..], NextMatches(mi, r), sc + RouteWidth(st, r));
      assert pls[0] == Placed(jobs[0], mi, sc) && pls[1..] == rest;
      assert GroupsOf(st, pls) == gs + GroupsOf(st, rest);
      hide Lay, GroupsOf, TotalWidth, Packed;
      LayWidth(st, jobs[1..], NextMatches(mi, r), sc + RouteWidth(st, r));
      RouteGroupsPacked(st, r, sc);
      TotalWidthConcat(st, gs, GroupsOf(st, rest));
    }
  }

  function MatchesRoutes(jobs: seq<Job>): nat {
    if |jobs| == 0 then 0 else NextMatches(0, jobs[0].route) + MatchesRoutes(jobs[1..])
  }

  lemma {:induction false} MatchesRoutesAppend(jobs: seq<Job>, j: Job)
    ensures MatchesRoutes(jobs + [j]) == NextMatches(MatchesRoutes(jobs), j.route)
  {
    if |jobs| == 0 {
      assert jobs + [j] == [j] && [j][1..] == [];
      assert MatchesRoutes([j][1..]) == 0;
    } else {
      assert (jobs + [j])[0] == jobs[0] && (jobs + [j])[1..] == jobs[1..] + [j];
      MatchesRoutesAppend(jobs[1..], j);
    }
  }

  lemma {:induction false} PlacedAppend(st: Settings, pls: seq<Placed>, pl: Placed)
    ensures ItemsOf(st, pls + [pl]) == ItemsOf(st, pls) + PlacedItems(st, pl)
    ensures GroupsOf(st, pls + [pl]) == GroupsOf(st, pls) + RouteGroups(st, pl.job.route, pl.sc)
    ensures AllMapsOf(st, pls + [pl]) == AllMapsOf(st, pls) + PlacedMaps(st, pl)
    ensures RedirectsOf(st, pls + [pl]) == RedirectsOf(st, pls) + RouteRedirect(st, pl.job.route, pl.mi, pl.sc)
  {
    hide PlacedItems, RouteGroups, PlacedMaps, RouteRedirect;
    if |pls| == 0 {
      assert pls + [pl] == [pl] && [pl][1..] == [];
      assert ItemsOf(st, []) == [] && GroupsOf(st, []) == [] && AllMapsOf(st, []) == [] && RedirectsOf(st, []) == [];
    } else {
      assert (pls + [pl])[0] == pls[0] && (pls + [pl])[1..] == pls[1..] + [pl];
      PlacedAppend(st, pls[1..], pl);
    }
  }

  /** What the loops over routes and subroutes have collected after a list of jobs. */
  function Progress(st: Settings, specMaps: seq<Map>, jobs: seq<Job>): RoutingCfg {
    var pls := Lay(st, jobs, 0, 0);
    var gs, items := GroupsOf(st, pls), ItemsOf(st, pls);
    RoutingCfg(specMaps + AllMapsOf(st, pls), ClientsOf(st, gs), KeyValsOf(st, gs), TwoWayOf(st, gs),
               RedirectsOf(st, pls), Locations(st, items, 0), Returns(st, items, 0))
  }

  function Extend(a: RoutingCfg, policyMaps: seq<Map>, b: RoutingCfg): RoutingCfg {
    RoutingCfg(a.maps + policyMaps + b.maps, a.splitClients + b.splitClients, a.keyVals + b.keyVals,
               a.twoWay + b.twoWay, a.redirects + b.redirects, a.locations + b.locations, a.named + b.named)
  }

  /** Generating one more route from the counters at hand keeps the collection in step: the
      number of split clients and of return locations are the right starting indices. */
  lemma ProgressExtends(st: Settings, specMaps: seq<Map>, jobs: seq<Job>, j: Job)
    ensures var a := Progress(st, specMaps, jobs);
            Progress(st, specMaps, jobs + [j]) ==
            Extend(a, j.route.policyMaps,
                   RoutingOf(st, j.place, j.route, MatchesRoutes(jobs), |a.splitClients|, |a.named|))
  {
    hide Lay, GroupsOf, ItemsOf, AllMapsOf, ClientsOf, KeyValsOf, TwoWayOf, RedirectsOf, Locations, Returns;
    hide RouteGroups, RouteItems, RouteMaps, RouteRedirect, Packed, TotalWidth, JobsWidth, MatchesRoutes;
    var pls := Lay(st, jobs, 0, 0);
    var gs := GroupsOf(st, pls);
    GroupsArePacked(st, jobs, 0, 0);
    PackedClients(st, gs, 0);
    LayAppend(st, jobs, j, 0, 0);
    LayWidth(st, jobs, 0, 0);
    var pl := Placed(j, MatchesRoutes(jobs), |ClientsOf(st, gs)|);
    PlacedAppend(st, pls, pl);
    GroupsConcat(st, gs, RouteGroups(st, j.route, pl.sc));
    ItemsConcat(st, ItemsOf(st, pls), PlacedItems(st, pl), 0);
    Regroup(specMaps, AllMapsOf(st, pls), PlacedMaps(st, pl));
    Regroup(specMaps + AllMapsOf(st, pls), j.route.policyMaps, RouteMaps(st, j.route, pl.mi, pl.sc));
  }

  method RemoveDuplicateMaps(maps: seq<Map>) returns (r: seq<Map>)
    ensures r == Deduplicated(maps, {})
  {
    var encountered: set<string> := {};
    r := [];
    var i := 0;
    while i < |maps|
      invariant 0 <= i <= |maps|
      invariant r + Deduplicated(maps[i..], encountered) == Deduplicated(maps, {})
    {
      var v := maps[i];
      assert maps[i..][0] == v && maps[i..][1..] == maps[i + 1..];
      if v.source + v.variable !in encountered {
        encountered := encountered + {v.source + v.variable};
        Regroup(r, [v], Deduplicated(maps[i + 1..], encountered));
        r := r + [v];
      }
      i := i + 1;
    }
  }

  method GenerateErrorPageLocations(d: PageDetails) returns (locs: seq<NamedLocation>)
    ensures locs == PageLocations(d, 0)
  {
    locs := [];
    var i := 0;
    while i < |d.pages|
      invariant 0 <= i <= |d.pages|
      invariant locs + PageLocations(d, i) == PageLocations(d, 0)
    {
      hide PageLocation;
      if d.pages[i].redirect.None? {
        Regroup(locs, [PageLocation(d, i)], PageLocations(d, i + 1));
        locs := locs + [PageLocation(d, i)];
      }
      i := i + 1;
    }
  }

  /** The counters and lists that the loops over routes and subroutes thread through. */
  class Collector {
    var cfg: RoutingCfg
    var matchesRoutes: nat
    var pages: seq<NamedLocation>
    var inherited: map<string, PageDetails>
    ghost var jobs: seq<Job>
    const st: Settings
    const specMaps: seq<Map>

    ghost predicate Valid()
      reads this
    {
      cfg == Progress(st, specMaps, jobs) && matchesRoutes == MatchesRoutes(jobs)
    }

    /** The abstract state: how far the pass over all routes has come. */
    ghost function State(): Pass
      reads this
    {
      Pass(jobs, pages, inherited)
    }

    constructor (st: Settings, specMaps: seq<Map>)
      ensures Valid() && State() == EMPTY_PASS && this.st == st && this.specMaps == specMaps
    {
      this.st, this.specMaps := st, specMaps;
      cfg := RoutingCfg(specMaps, [], [], [], [], [], []);
      matchesRoutes, pages, inherited, jobs := 0, [], map[], [];
      new;
      assert specMaps + [] == specMaps;
    }

    method AddRoute(place: Place, r: Route)
      requires Valid()
      modifies this`cfg, this`matchesRoutes, this`jobs
      ensures Valid() && jobs == old(jobs) + [Job(place, r)]
    {
      hide Progress, MatchesRoutes, RoutingOf;
      var more := GenerateRoute(st, place, r, matchesRoutes, |cfg.splitClients|, |cfg.named|);
      ProgressExtends(st, specMaps, jobs, Job(place, r));
      MatchesRoutesAppend(jobs, Job(place, r));
      cfg := RoutingCfg(cfg.maps + r.policyMaps + more.maps, cfg.splitClients + more.splitClients, cfg.keyVals + more.keyVals,
                        cfg.twoWay + more.twoWay, cfg.redirects + more.redirects, cfg.locations + more.locations,
                        cfg.named + more.named);
      if |r.matches| > 0 {
        matchesRoutes := matchesRoutes + 1;
      }
      jobs := jobs + [Job(place, r)];
    }

    /** A route of the VirtualServer itself. */
    method AddSpecRoute(prefix: string, r: SpecRoute)
      requires Valid()
      modifies this
      ensures Valid() && State() == RouteStep(prefix, old(State()), r)
    {
      hide Progress, MatchesRoutes, PageLocations;
      var errorPages := if r.OwnRoute? then PagesOf(r.route.errorPages) else PagesOf(r.errorPages);
      var d := PageDetails(errorPages, |pages|);
      var locs := GenerateErrorPageLocations(d);
      pages := pages + locs;
      if r.HandOver? {
        if |errorPages| > 0 {
          var m := StoreForHosts(inherited, r.hosts, d);
          inherited := m;
        }
      } else {
        AddRoute(Place(prefix, d), r.route);
      }
    }

    /** A subroute, which falls back to the error pages of the route that hands over to it. */
    method AddSubroute(h: VirtualServerRoute, r: Route)
      requires Valid()
      modifies this
      ensures Valid() && State() == SubrouteStep(h, old(State()), r)
    {
      hide Progress, MatchesRoutes, PageLocations;
      var d := PageDetails(PagesOf(r.errorPages), |pages|);
      var locs := GenerateErrorPageLocations(d);
      pages := pages + locs;
      if r.errorPages.None? && h.key in inherited {
        d := inherited[h.key];
      }
      AddRoute(Place(h.prefix, d), r);
    }
  }

  method StoreForHosts(m: map<string, PageDetails>, hosts: seq<string>, d: PageDetails) returns (r: map<string, PageDetails>)
    ensures r == Inherit(m, hosts, d)
  {
    r := m;
    var i := 0;
    while i < |hosts|
      invariant 0 <= i <= |hosts|
      invariant Inherit(r, hosts[i..], d) == Inherit(m, hosts, d)
    {
      assert hosts[i..][0] == hosts[i] && hosts[i..][1..] == hosts[i + 1..];
      r := r[hosts[i] := d];
      i := i + 1;
    }
  }

  /** The whole generation. */
  method GenerateVirtualServerConfig(st: Settings, vs: VirtualServer) returns (c: Config)
    ensures c == ConfigOf(st, vs)
  {
    hide Progress, RouteStep, SubrouteStep, MatchesRoutes;
    var col := new Collector(st, vs.specMaps);
    var i := 0;
    while i < |vs.routes|
      invariant 0 <= i <= |vs.routes|
      invariant col.Valid()
      invariant RoutesPass(vs.prefix, col.State(), vs.routes[i..]) == RoutesPass(vs.prefix, EMPTY_PASS, vs.routes)
    {
      assert vs.routes[i..][0] == vs.routes[i] && vs.routes[i..][1..] == vs.routes[i + 1..];
      col.AddSpecRoute(vs.prefix, vs.routes[i]);
      i := i + 1;
    }
    assert col.State() == RoutesPass(vs.prefix, EMPTY_PASS, vs.routes);
    i := 0;
    while i < |vs.hosts|
      invariant 0 <= i <= |vs.hosts|
      invariant col.Valid()
      invariant HostsPass(col.State(), vs.hosts[i..]) == WholePass(vs)
    {
      var h := vs.hosts[i];
      ghost var start := col.State();
      assert vs.hosts[i..][0] == h && vs.hosts[i..][1..] == vs.hosts[i + 1..];
      var j := 0;
      while j < |h.subroutes|
        invariant 0 <= j <= |h.subroutes|
        invariant col.Valid()
        invariant SubroutesPass(h, col.State(), h.subroutes[j..]) == SubroutesPass(h, start, h.subroutes)
      {
        assert h.subroutes[j..][0] == h.subroutes[j] && h.subroutes[j..][1..] == h.subroutes[j + 1..];
        col.AddSubroute(h, h.subroutes[j]);
        j := j + 1;
      }
      i := i + 1;
    }
    assert col.State() == WholePass(vs);
    var maps := RemoveDuplicateMaps(col.cfg.maps + vs.keyMaps);
    c := Config(Program(maps, col.cfg.splitClients, col.cfg.keyVals), col.cfg.twoWay, col.cfg.redirects,
                col.cfg.locations, col.cfg.named, col.pages, vs.added);
    ProgressIsConfig(st, vs);
  }

  lemma ProgressIsConfig(st: Settings, vs: VirtualServer)
    ensures var p, pass := Progress(st, vs.specMaps, WholePass(vs).jobs), WholePass(vs);
            ConfigOf(st, vs) == Config(Program(Deduplicated(p.maps + vs.keyMaps, {}), p.splitClients, p.keyVals),
                                       p.twoWay, p.redirects, p.locations, p.named, pass.pages, vs.added)
  {
    hide WholePass, Lay, AllMapsOf, ClientsOf, KeyValsOf, TwoWayOf, GroupsOf, ItemsOf, RedirectsOf, Locations, Returns;
  }
}
