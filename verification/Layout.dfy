/** How the counters threaded through all routes and subroutes of a VirtualServer keep
    every generated name apart, and why the two passes over a route's splits agree. */
module Layout {
  import opened Text
  import opened Nginx
  import opened Routes
  import opened Compile
  import opened VariableNames

  /** A route to generate, and where it stands. */
  datatype Job = Job(place: Place, route: Route)

  /** A job with the counters it starts from: the number of earlier routes with matches and
      the number of split clients generated so far. */
  datatype Placed = Placed(job: Job, mi: nat, sc: nat)

  function NextMatches(mi: nat, r: Route): nat { if |r.matches| > 0 then mi + 1 else mi }

  function Lay(st: Settings, jobs: seq<Job>, mi: nat, sc: nat): (r: seq<Placed>)
    ensures |r| == |jobs| && forall i :: 0 <= i < |jobs| ==> r[i].job == jobs[i]
  {
    if |jobs| == 0 then []
    else
      var r := jobs[0].route;
      [Placed(jobs[0], mi, sc)] + Lay(st, jobs[1..], NextMatches(mi, r), sc + RouteWidth(st, r))
  }

  // ---- everything the placed jobs generate ----

  function PlacedItems(st: Settings, pl: Placed): seq<Item> {
    RouteItems(st, pl.job.place, pl.job.route, pl.mi, pl.sc)
  }

  function ItemsOf(st: Settings, pls: seq<Placed>): seq<Item> {
    if |pls| == 0 then [] else PlacedItems(st, pls[0]) + ItemsOf(st, pls[1..])
  }

  function GroupsOf(st: Settings, pls: seq<Placed>): seq<Group> {
    if |pls| == 0 then [] else RouteGroups(st, pls[0].job.route, pls[0].sc) + GroupsOf(st, pls[1..])
  }

  function PlacedMaps(st: Settings, pl: Placed): seq<Map> {
    pl.job.route.policyMaps + RouteMaps(st, pl.job.route, pl.mi, pl.sc)
  }

  function AllMapsOf(st: Settings, pls: seq<Placed>): seq<Map> {
    if |pls| == 0 then [] else PlacedMaps(st, pls[0]) + AllMapsOf(st, pls[1..])
  }

  function RoutingMapsOf(st: Settings, pls: seq<Placed>): seq<Map> {
    if |pls| == 0 then []
    else RouteMaps(st, pls[0].job.route, pls[0].mi, pls[0].sc) + RoutingMapsOf(st, pls[1..])
  }

  function RedirectsOf(st: Settings, pls: seq<Placed>): seq<InternalRedirect> {
    if |pls| == 0 then []
    else RouteRedirect(st, pls[0].job.route, pls[0].mi, pls[0].sc) + RedirectsOf(st, pls[1..])
  }

  // ---- the two passes agree ----

  function TotalWidth(st: Settings, gs: seq<Group>): nat {
    if |gs| == 0 then 0 else Width(st, gs[0].splits) + TotalWidth(st, gs[1..])
  }

  /** Every group's index is `lo` plus the number of split clients of the groups before it. */
  predicate Packed(st: Settings, gs: seq<Group>, lo: nat) {
    |gs| > 0 ==>
      && gs[0].index == lo
      && |gs[0].splits| > 0
      && Packed(st, gs[1..], lo + Width(st, gs[0].splits))
  }

  lemma {:induction false} PackedConcat(st: Settings, a: seq<Group>, b: seq<Group>, lo: nat)
    requires Packed(st, a, lo) && Packed(st, b, lo + TotalWidth(st, a))
    ensures Packed(st, a + b, lo) && TotalWidth(st, a + b) == TotalWidth(st, a) + TotalWidth(st, b)
  {
    if |a| == 0 {
      assert a + b == b;
    } else {
      assert (a + b)[1..] == a[1..] + b;
      PackedConcat(st, a[1..], b, lo + Width(st, a[0].splits));
    }
  }

  lemma {:induction false} GroupIndexShift(st: Settings, ms: seq<Match>, i: nat, sc: nat)
    requires i <= |ms|
    ensures GroupIndex(st, ms, i, sc) == sc + GroupIndex(st, ms, i, 0)
  {
    if i > 0 {
      GroupIndexShift(st, ms, i - 1, sc);
    }
  }

  lemma OnePacked(st: Settings, gs: seq<Group>, lo: nat, splits: seq<Split>)
    requires gs == if |splits| > 0 then [Group(lo, splits)] else []
    ensures Packed(st, gs, lo) && TotalWidth(st, gs) == Width(st, splits)
  {
    if |gs| > 0 {
      assert gs[1..] == [];
      assert TotalWidth(st, gs[1..]) == 0;
    }
  }

  lemma {:induction false} MatchGroupsPacked(st: Settings, ms: seq<Match>, i: nat, sc: nat)
    requires i <= |ms|
    ensures var gs := MatchGroups(st, ms, i, sc);
            && Packed(st, gs, GroupIndex(st, ms, i, sc))
            && GroupIndex(st, ms, i, sc) + TotalWidth(st, gs) == GroupIndex(st, ms, |ms|, sc)
    decreases |ms| - i
  {
    hide MatchGroups, MatchGroup, Width, GroupIndex, Packed, TotalWidth;
    if i == |ms| {
      NoMoreGroups(st, ms, sc);
    } else {
      MatchGroupsPacked(st, ms, i + 1, sc);
      NextGroups(st, ms, i, sc);
      var lo, a, b := GroupIndex(st, ms, i, sc), MatchGroup(st, ms, i, sc), MatchGroups(st, ms, i + 1, sc);
      OnePacked(st, a, lo, ms[i].splits);
      PackedConcat(st, a, b, lo);
    }
  }

  lemma NoMoreGroups(st: Settings, ms: seq<Match>, sc: nat)
    ensures MatchGroups(st, ms, |ms|, sc) == [] && Packed(st, [], GroupIndex(st, ms, |ms|, sc)) && TotalWidth(st, []) == 0
  {
    hide GroupIndex;
  }

  lemma NextGroups(st: Settings, ms: seq<Match>, i: nat, sc: nat)
    requires i < |ms|
    ensures GroupIndex(st, ms, i + 1, sc) == GroupIndex(st, ms, i, sc) + Width(st, ms[i].splits)
    ensures MatchGroups(st, ms, i, sc) == MatchGroup(st, ms, i, sc) + MatchGroups(st, ms, i + 1, sc)
    ensures var splits := ms[i].splits;
            MatchGroup(st, ms, i, sc) == if |splits| > 0 then [Group(GroupIndex(st, ms, i, sc), splits)] else []
  {
    hide Width;
  }

  /** Within a route, the index that the main map computes for a group of splits is the
      number of split clients that exist when the group is generated. */
  lemma RouteGroupsPacked(st: Settings, r: Route, sc: nat)
    ensures Packed(st, RouteGroups(st, r, sc), sc)
    ensures TotalWidth(st, RouteGroups(st, r, sc)) == RouteWidth(st, r)
  {
    var ms, b := r.matches, DefaultGroup(st, r, sc);
    MatchGroupsPacked(st, ms, 0, sc);
    GroupIndexShift(st, ms, |ms|, sc);
    OnePacked(st, b, GroupIndex(st, ms, |ms|, sc), r.splits);
    hide Packed, TotalWidth, Width, MatchGroups;
    PackedConcat(st, MatchGroups(st, ms, 0, sc), b, sc);
  }

  /** The same over the whole VirtualServer, so that every group has its own index. */
  lemma {:induction false} GroupsArePacked(st: Settings, jobs: seq<Job>, mi: nat, sc: nat)
    ensures Packed(st, GroupsOf(st, Lay(st, jobs, mi, sc)), sc)
  {
    if |jobs| > 0 {
      var r := jobs[0].route;
      var pls := Lay(st, jobs, mi, sc);
      assert pls[1..] == Lay(st, jobs[1..], NextMatches(mi, r), sc + RouteWidth(st, r));
      hide Packed, TotalWidth, RouteGroups, RouteWidth;
      RouteGroupsPacked(st, r, sc);
      GroupsArePacked(st, jobs[1..], NextMatches(mi, r), sc + RouteWidth(st, r));
      PackedConcat(st, RouteGroups(st, r, sc), GroupsOf(st, pls[1..]), sc);
    }
  }

  lemma {:induction false} PackedClients(st: Settings, gs: seq<Group>, lo: nat)
    requires Packed(st, gs, lo)
    ensures |ClientsOf(st, gs)| == TotalWidth(st, gs)
  {
    if |gs| > 0 {
      PackedClients(st, gs[1..], lo + Width(st, gs[0].splits));
    }
  }

  lemma {:induction false} PackedBounds(st: Settings, gs: seq<Group>, lo: nat)
    requires Packed(st, gs, lo)
    ensures forall a :: 0 <= a < |gs| ==> |gs[a].splits| > 0 && lo <= gs[a].index < lo + TotalWidth(st, gs)
    ensures forall a, b :: 0 <= a < b < |gs| ==> gs[a].index + Width(st, gs[a].splits) <= gs[b].index
  {
    if |gs| > 0 {
      var lo' := lo + Width(st, gs[0].splits);
      PackedBounds(st, gs[1..], lo');
      assert forall a :: 1 <= a < |gs| ==> gs[a] == gs[1..][a - 1];
    }
  }

  // ---- no tag occurs twice ----

  /** The split-client index or the matches index a variable belongs to. */
  predicate KeyFrom(k: Key, mi: nat, sc: nat) {
    match k
    case Cond(m, _, _) => mi <= m
    case Main(m) => mi <= m
    case _ => sc <= k.index
  }

  predicate KeyBefore(k: Key, mi: nat, sc: nat) {
    match k
    case Cond(m, _, _) => m < mi
    case Main(m) => m < mi
    case _ => k.index < sc
  }

  // ---- variables of split clients and key-values ----

  function GroupClientKeys(st: Settings, g: Group): (ks: seq<Key>)
    ensures |ks| == |GroupClients(st, g)|
  {
    if IsTwoWay(st, g.splits) then seq(WEIGHT_CLIENTS, i requires 0 <= i < WEIGHT_CLIENTS => Weighted(g.index, i, 100 - i))
    else [Splits(g.index)]
  }

  function ClientKeys(st: Settings, gs: seq<Group>): seq<Key> {
    if |gs| == 0 then [] else GroupClientKeys(st, gs[0]) + ClientKeys(st, gs[1..])
  }

  function GroupKeyvalKeys(st: Settings, g: Group): seq<Key> {
    if IsTwoWay(st, g.splits) then [Keyval(g.index)] else []
  }

  function KeyvalKeys(st: Settings, gs: seq<Group>): seq<Key> {
    if |gs| == 0 then [] else GroupKeyvalKeys(st, gs[0]) + KeyvalKeys(st, gs[1..])
  }

  function GroupMapKeys(st: Settings, g: Group): seq<Key> {
    if IsTwoWay(st, g.splits) then [SplitMap(g.index)] else []
  }

  function SplitMapKeys(st: Settings, gs: seq<Group>): seq<Key> {
    if |gs| == 0 then [] else GroupMapKeys(st, gs[0]) + SplitMapKeys(st, gs[1..])
  }

  lemma GroupClientKeysUnique(st: Settings, g: Group)
    ensures Unique(GroupClientKeys(st, g))
    ensures forall k :: k in GroupClientKeys(st, g) ==> (k.Splits? || k.Weighted?) && k.index == g.index
    ensures forall i :: 0 <= i < |GroupClientKeys(st, g)| ==>
              GroupClients(st, g)[i].variable == st.namer.variable(GroupClientKeys(st, g)[i])
  {
    var ks := GroupClientKeys(st, g);
    if IsTwoWay(st, g.splits) {
      forall i, j | 0 <= i < j < |ks| ensures ks[i] != ks[j] {
        assert ks[i].first == i && ks[j].first == j;
      }
    }
  }

  /** Two concatenations are parallel when their parts are. */
  lemma {:induction false} ClientKeysSpec(st: Settings, gs: seq<Group>, lo: nat)
    requires Packed(st, gs, lo)
    ensures Unique(ClientKeys(st, gs))
    ensures forall k :: k in ClientKeys(st, gs) ==> (k.Splits? || k.Weighted?) && lo <= k.index
    ensures |ClientKeys(st, gs)| == |ClientsOf(st, gs)|
    ensures forall i :: 0 <= i < |ClientsOf(st, gs)| ==>
              ClientsOf(st, gs)[i].variable == st.namer.variable(ClientKeys(st, gs)[i])
  {
    if |gs| > 0 {
      GroupClientKeysUnique(st, gs[0]);
      ClientKeysSpec(st, gs[1..], lo + Width(st, gs[0].splits));
      UniqueConcat(GroupClientKeys(st, gs[0]), ClientKeys(st, gs[1..]));
    }
  }

  lemma {:induction false} KeyvalKeysSpec(st: Settings, gs: seq<Group>, lo: nat)
    requires Packed(st, gs, lo)
    ensures Unique(KeyvalKeys(st, gs))
    ensures forall k :: k in KeyvalKeys(st, gs) ==> k.Keyval? && lo <= k.index
    ensures |KeyvalKeys(st, gs)| == |KeyValsOf(st, gs)|
    ensures forall i :: 0 <= i < |KeyValsOf(st, gs)| ==>
              KeyValsOf(st, gs)[i].variable == st.namer.variable(KeyvalKeys(st, gs)[i])
  {
    if |gs| > 0 {
      KeyvalKeysSpec(st, gs[1..], lo + Width(st, gs[0].splits));
      UniqueConcat(GroupKeyvalKeys(st, gs[0]), KeyvalKeys(st, gs[1..]));
    }
  }

  lemma {:induction false} SplitMapKeysSpec(st: Settings, gs: seq<Group>, lo: nat)
    requires Packed(st, gs, lo)
    ensures Unique(SplitMapKeys(st, gs))
    ensures forall k :: k in SplitMapKeys(st, gs) ==> k.SplitMap? && lo <= k.index < lo + TotalWidth(st, gs)
    ensures |SplitMapKeys(st, gs)| == |MapsOf(st, gs)|
    ensures forall i :: 0 <= i < |MapsOf(st, gs)| ==>
              MapsOf(st, gs)[i].variable == st.namer.variable(SplitMapKeys(st, gs)[i])
  {
    if |gs| > 0 {
      SplitMapKeysSpec(st, gs[1..], lo + Width(st, gs[0].splits));
      UniqueConcat(GroupMapKeys(st, gs[0]), SplitMapKeys(st, gs[1..]));
    }
  }

  // ---- variables of maps ----

  function MatchMapKeys(mi: nat, i: nat, n: nat): (ks: seq<Key>)
    ensures |ks| == n
  {
    seq(n, j requires 0 <= j < n => Cond(mi, i, j))
  }

  function ConditionMapKeys(mi: nat, ms: seq<Match>, i: nat): seq<Key>
    requires i <= |ms|
    decreases |ms| - i
  {
    if i == |ms| then [] else MatchMapKeys(mi, i, |ms[i].conditions|) + ConditionMapKeys(mi, ms, i + 1)
  }

  lemma {:induction false} ConditionMapKeysSpec(st: Settings, mi: nat, ms: seq<Match>, i: nat)
    requires i <= |ms|
    ensures var ks, maps := ConditionMapKeys(mi, ms, i), ConditionMaps(st, mi, ms, i);
            && Unique(ks)
            && (forall k :: k in ks ==> k.Cond? && k.matches == mi && k.mtch >= i)
            && |ks| == |maps|
            && (forall a :: 0 <= a < |maps| ==> maps[a].variable == st.namer.variable(ks[a]))
    decreases |ms| - i
  {
    if i < |ms| {
      ConditionMapKeysSpec(st, mi, ms, i + 1);
      UniqueConcat(MatchMapKeys(mi, i, |ms[i].conditions|), ConditionMapKeys(mi, ms, i + 1));
    }
  }

  function MatchesMapKeys(r: Route, mi: nat): seq<Key> {
    if |r.matches| > 0 then ConditionMapKeys(mi, r.matches, 0) + [Main(mi)] else []
  }

  function RouteMapKeys(st: Settings, r: Route, mi: nat, sc: nat): seq<Key> {
    MatchesMapKeys(r, mi) + SplitMapKeys(st, RouteGroups(st, r, sc))
  }

  /** The keys are the names of the maps, one for one. */
  ghost predicate Named(st: Settings, maps: seq<Map>, ks: seq<Key>) {
    |ks| == |maps| && forall a :: 0 <= a < |maps| ==> maps[a].variable == st.namer.variable(ks[a])
  }

  lemma NamedConcat(st: Settings, m: seq<Map>, m': seq<Map>, k: seq<Key>, k': seq<Key>)
    requires Named(st, m, k) && Named(st, m', k')
    ensures Named(st, m + m', k + k')
  {
  }

  predicate MapKey(k: Key) { k.Cond? || k.Main? || k.SplitMap? }

  lemma MatchesMapKeysSpec(st: Settings, r: Route, mi: nat, sc: nat)
    ensures Named(st, MatchesMaps(st, r, mi, sc), MatchesMapKeys(r, mi)) && Unique(MatchesMapKeys(r, mi))
    ensures forall k :: k in MatchesMapKeys(r, mi) ==> |r.matches| > 0 && (k.Cond? || k.Main?) && k.matches == mi
  {
    if |r.matches| > 0 {
      ConditionMapKeysSpec(st, mi, r.matches, 0);
      var a, m := ConditionMapKeys(mi, r.matches, 0), ConditionMaps(st, mi, r.matches, 0);
      var main := [MainMap(st, r, mi, sc)];
      assert Named(st, m, a) && Named(st, main, [Main(mi)]) && Unique([Main(mi)]);
      hide Unique, Named, ConditionMapKeys, ConditionMaps, MainMap;
      UniqueConcat(a, [Main(mi)]);
      NamedConcat(st, m, main, a, [Main(mi)]);
    }
  }

  lemma RouteMapKeysSpec(st: Settings, r: Route, mi: nat, sc: nat)
    ensures var ks := RouteMapKeys(st, r, mi, sc);
            && Named(st, RouteMaps(st, r, mi, sc), ks)
            && Unique(ks)
            && (forall k :: k in ks ==>
                  && MapKey(k)
                  && KeyFrom(k, mi, sc)
                  && KeyBefore(k, NextMatches(mi, r), sc + RouteWidth(st, r)))
  {
    var gs := RouteGroups(st, r, sc);
    RouteGroupsPacked(st, r, sc);
    SplitMapKeysSpec(st, gs, sc);
    assert Named(st, MapsOf(st, gs), SplitMapKeys(st, gs));
    MatchesMapKeysSpec(st, r, mi, sc);
    hide Unique, Named, SplitMapKeys, MapsOf, MatchesMapKeys, MatchesMaps, RouteGroups, Packed, TotalWidth, RouteWidth;
    UniqueConcat(MatchesMapKeys(r, mi), SplitMapKeys(st, gs));
    NamedConcat(st, MatchesMaps(st, r, mi, sc), MapsOf(st, gs), MatchesMapKeys(r, mi), SplitMapKeys(st, gs));
  }

  function AllMapKeys(st: Settings, pls: seq<Placed>): seq<Key> {
    if |pls| == 0 then []
    else RouteMapKeys(st, pls[0].job.route, pls[0].mi, pls[0].sc) + AllMapKeys(st, pls[1..])
  }

  /** No two maps generated for the routes of a VirtualServer define the same variable. */
  lemma {:induction false} AllMapKeysSpec(st: Settings, jobs: seq<Job>, mi: nat, sc: nat)
    ensures var pls := Lay(st, jobs, mi, sc);
            var ks := AllMapKeys(st, pls);
            && Named(st, RoutingMapsOf(st, pls), ks)
            && Unique(ks)
            && (forall k :: k in ks ==> MapKey(k) && KeyFrom(k, mi, sc))
  {
    if |jobs| > 0 {
      hide RouteMapKeys, RouteMaps, KeyFrom, KeyBefore, RouteWidth, Named, Unique;
      var r := jobs[0].route;
      var pls := Lay(st, jobs, mi, sc);
      var mi', sc' := NextMatches(mi, r), sc + RouteWidth(st, r);
      assert pls[1..] == Lay(st, jobs[1..], mi', sc');
      RouteMapKeysSpec(st, r, mi, sc);
      AllMapKeysSpec(st, jobs[1..], mi', sc');
      var a, b := RouteMapKeys(st, r, mi, sc), AllMapKeys(st, pls[1..]);
      forall k | k in a ensures k !in b { KeyBeforeNotFrom(k, mi', sc'); }
      UniqueConcat(a, b);
      NamedConcat(st, RouteMaps(st, r, mi, sc), RoutingMapsOf(st, pls[1..]), a, b);
      forall k | k in a + b ensures KeyFrom(k, mi, sc) {
        if k in b { KeyFromLater(k, mi, sc, mi', sc'); }
      }
    } else {
      assert RoutingMapsOf(st, Lay(st, jobs, mi, sc)) == [];
    }
  }

  lemma KeyBeforeNotFrom(k: Key, mi: nat, sc: nat)
    ensures !(KeyBefore(k, mi, sc) && KeyFrom(k, mi, sc))
  {
  }

  lemma KeyFromLater(k: Key, mi: nat, sc: nat, mi': nat, sc': nat)
    requires KeyFrom(k, mi', sc') && mi <= mi' && sc <= sc'
    ensures KeyFrom(k, mi, sc)
  {
  }

  // ---- internal locations ----

  /** No internal location is generated twice. */
  predicate UniqueSpots(items: seq<Item>) {
    forall i, j :: 0 <= i < j < |items| && items[i].at.Internal? ==> items[i].at != items[j].at
  }

  predicate SpotFrom(at: At, mi: nat, sc: nat) {
    match at
    case External(_) => true
    case Internal(SplitSpot(x, _)) => sc <= x
    case Internal(spot) => mi <= spot.matches
  }

  predicate SpotBefore(at: At, mi: nat, sc: nat) {
    match at
    case External(_) => true
    case Internal(SplitSpot(x, _)) => x < sc
    case Internal(spot) => spot.matches < mi
  }

  lemma UniqueSpotsConcat(a: seq<Item>, b: seq<Item>)
    requires UniqueSpots(a) && UniqueSpots(b)
    requires forall x, y :: x in a && y in b && x.at.Internal? ==> x.at != y.at
    ensures UniqueSpots(a + b)
  {
    var s := a + b;
    forall i, j | 0 <= i < j < |s| && s[i].at.Internal? ensures s[i].at != s[j].at {
      if i < |a| && j >= |a| {
        assert s[i] in a && s[j] in b;
      }
    }
  }

  predicate InMatches(at: At, mi: nat, i: nat, lo: nat, hi: nat) {
    match at
    case External(_) => false
    case Internal(SplitSpot(k, _)) => lo <= k < hi
    case Internal(MatchSpot(m, k)) => m == mi && i <= k
    case Internal(DefaultSpot(_)) => false
  }

  /** A location of match `i` itself. */
  predicate InMatch(at: At, mi: nat, i: nat, lo: nat, hi: nat) {
    InMatches(at, mi, i, lo, hi) && (at.spot.MatchSpot? ==> at == Internal(MatchSpot(mi, i)))
  }

  lemma MatchItemsSpots(st: Settings, place: Place, ms: seq<Match>, i: nat, mi: nat, sc: nat)
    requires i < |ms|
    ensures var items, lo := MatchItems(st, place, ms, i, mi, sc), GroupIndex(st, ms, i, sc);
            && UniqueSpots(items)
            && GroupIndex(st, ms, i + 1, sc) == lo + Width(st, ms[i].splits)
            && (forall x :: x in items ==> InMatch(x.at, mi, i, lo, lo + Width(st, ms[i].splits)))
  {
  }

  lemma JoinSpots(a: seq<Item>, b: seq<Item>, mi: nat, i: nat, lo: nat, mid: nat, hi: nat)
    requires UniqueSpots(a) && UniqueSpots(b) && lo <= mid <= hi
    requires forall x :: x in a ==> InMatch(x.at, mi, i, lo, mid)
    requires forall x :: x in b ==> InMatches(x.at, mi, i + 1, mid, hi)
    ensures UniqueSpots(a + b) && forall x :: x in a + b ==> InMatches(x.at, mi, i, lo, hi)
  {
    hide UniqueSpots;
    UniqueSpotsConcat(a, b);
  }

  lemma NoSpots()
    ensures UniqueSpots([])
  {
  }

  lemma {:induction false} AllMatchItemsSpots(st: Settings, place: Place, ms: seq<Match>, i: nat, mi: nat, sc: nat)
    requires i <= |ms|
    ensures var items := AllMatchItems(st, place, ms, i, mi, sc);
            && UniqueSpots(items)
            && GroupIndex(st, ms, i, sc) <= GroupIndex(st, ms, |ms|, sc)
            && (forall x :: x in items ==> InMatches(x.at, mi, i, GroupIndex(st, ms, i, sc), GroupIndex(st, ms, |ms|, sc)))
    decreases |ms| - i
  {
    hide MatchItems, GroupIndex, UniqueSpots, Width, InMatch, InMatches;
    if i == |ms| {
      NoSpots();
    } else {
      MatchItemsSpots(st, place, ms, i, mi, sc);
      AllMatchItemsSpots(st, place, ms, i + 1, mi, sc);
      JoinSpots(MatchItems(st, place, ms, i, mi, sc), AllMatchItems(st, place, ms, i + 1, mi, sc), mi, i,
                GroupIndex(st, ms, i, sc), GroupIndex(st, ms, i + 1, sc), GroupIndex(st, ms, |ms|, sc));
    }
  }

  lemma RouteItemsSpots(st: Settings, place: Place, r: Route, mi: nat, sc: nat)
    ensures var items := RouteItems(st, place, r, mi, sc);
            && UniqueSpots(items)
            && (forall x :: x in items ==>
                  && SpotFrom(x.at, mi, sc)
                  && SpotBefore(x.at, NextMatches(mi, r), sc + RouteWidth(st, r)))
  {
    var ms := r.matches;
    var a, b := AllMatchItems(st, place, ms, 0, mi, sc), DefaultItems(st, place, r, mi, sc);
    AllMatchItemsSpots(st, place, ms, 0, mi, sc);
    GroupIndexShift(st, ms, |ms|, sc);
    assert forall x :: x in b ==>
      || x.at.External?
      || (|r.splits| > 0 && x.at.spot.SplitSpot? && x.at.spot.index == GroupIndex(st, ms, |ms|, sc))
      || (|ms| > 0 && x.at == Internal(DefaultSpot(mi)));
    assert UniqueSpots(b);
    UniqueSpotsConcat(a, b);
    assert |ms| == 0 ==> a == [];
  }

  lemma SpotBeforeNotFrom(at: At, mi: nat, sc: nat)
    requires at.Internal?
    ensures !(SpotBefore(at, mi, sc) && SpotFrom(at, mi, sc))
  {
  }

  lemma SpotFromLater(at: At, mi: nat, sc: nat, mi': nat, sc': nat)
    requires SpotFrom(at, mi', sc') && mi <= mi' && sc <= sc'
    ensures SpotFrom(at, mi, sc)
  {
  }

  /** Every internal location of the whole VirtualServer has its own path. */
  lemma {:induction false} AllSpotsUnique(st: Settings, jobs: seq<Job>, mi: nat, sc: nat)
    ensures var items := ItemsOf(st, Lay(st, jobs, mi, sc));
            UniqueSpots(items) && forall x :: x in items ==> SpotFrom(x.at, mi, sc)
  {
    if |jobs| > 0 {
      hide RouteItems, SpotFrom, SpotBefore, RouteWidth, UniqueSpots;
      var r := jobs[0].route;
      var pls := Lay(st, jobs, mi, sc);
      var mi', sc' := NextMatches(mi, r), sc + RouteWidth(st, r);
      assert pls[1..] == Lay(st, jobs[1..], mi', sc');
      RouteItemsSpots(st, jobs[0].place, r, mi, sc);
      AllSpotsUnique(st, jobs[1..], mi', sc');
      var a, b := PlacedItems(st, pls[0]), ItemsOf(st, pls[1..]);
      forall x, y | x in a && y in b && x.at.Internal? ensures x.at != y.at { SpotBeforeNotFrom(x.at, mi', sc'); }
      UniqueSpotsConcat(a, b);
      forall x | x in a + b ensures SpotFrom(x.at, mi, sc) {
        if x in b { SpotFromLater(x.at, mi, sc, mi', sc'); }
      }
    } else {
      assert ItemsOf(st, Lay(st, jobs, mi, sc)) == [];
    }
  }
}
