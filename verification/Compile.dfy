/** The generator's output for routes: names, locations, condition maps, the main map,
    split clients and their key-value indirection, as functions of the input. The loops
    that build them are the methods of module Generator. */
module Compile {
  import opened Text
  import opened Nginx
  import opened Routes

  const WEIGHT_CLIENTS: nat := 101

  /** What a generated variable stands for. */
  datatype Key =
    | Cond(matches: nat, mtch: nat, cond: nat)
    | Main(matches: nat)
    | Splits(index: nat)
    | Weighted(index: nat, first: nat, second: nat)
    | SplitMap(index: nat)
    | Keyval(index: nat)

  /** What an internal location stands for. */
  datatype Spot =
    | SplitSpot(index: nat, split: nat)
    | MatchSpot(matches: nat, mtch: nat)
    | DefaultSpot(matches: nat)

  /** The names a VirtualServer's generated entities go by. */
  datatype Namer = Namer(
    variable: Key -> string,
    path: Spot -> string,
    zone: nat -> string,
    keyvalKey: nat -> string,
    weightKey: (nat, nat, nat) -> string)

  /** `dynamic` says whether weights may change without a reload. */
  datatype Settings = Settings(namer: Namer, dynamic: bool)

  /** The error pages in force for a route and the index their named locations carry. */
  datatype PageDetails = PageDetails(pages: seq<ErrorPage>, index: nat)

  /** Where an action stands: the upstream name prefix of its owner and its error pages. */
  datatype Place = Place(prefix: string, pages: PageDetails)

  datatype ErrorPageRef = ErrorPageRef(name: string, codes: seq<int>, code: int)

  /** No upstream means that the request goes to the internal server that answers 418.
      `intercepts` says whether error pages may replace an answer. */
  datatype Location = Location(path: string, upstream: Option<string>, intercepts: bool, errorPages: seq<ErrorPageRef>)

  datatype NamedLocation = NamedLocation(name: string, contentType: string, body: string)

  datatype InternalRedirect = InternalRedirect(path: string, destination: string)

  datatype TwoWaySplitClients = TwoWaySplitClients(
    key: string, variable: string, zone: string, weights: (nat, nat), index: nat)

  // ---- names ----

  function ReturnName(k: nat): string { "@return_" + Dec(k) }

  function ErrorPageName(index: nat, i: nat): string { "@error_page_" + Join([Dec(index), Dec(i)]) }

  // ---- locations ----

  function GeneratePath(path: string): string {
    if StartsWith(path, "^~") then "^~ " + TrimLeft(path[2..])
    else if StartsWith(path, "~*") then "~* \"" + TrimLeft(path[2..]) + "\""
    else if StartsWith(path, "~") then "~ \"" + TrimLeft(path[1..]) + "\""
    else if StartsWith(path, "=") then "= " + TrimLeft(path[1..])
    else path
  }

  function ErrorPages(d: PageDetails): (r: seq<ErrorPageRef>)
    ensures |r| == |d.pages|
  {
    seq(|d.pages|, i requires 0 <= i < |d.pages| =>
      var e := d.pages[i];
      if e.redirect.Some? then
        ErrorPageRef(e.redirect.value.url, e.codes, if e.redirect.value.code == 0 then 301 else e.redirect.value.code)
      else
        ErrorPageRef(ErrorPageName(d.index, i), e.codes, e.ret.code))
  }

  /** The location for an action, and the named location it refers to if the action is a
      return; `ret` is the number of named return locations there are already. */
  function GenerateLocation(place: Place, path: string, a: Action, ret: nat): (Location, Option<NamedLocation>) {
    if a.redirect.Some? then
      var code := if a.redirect.value.code == 0 then 301 else a.redirect.value.code;
      (Location(GeneratePath(path), None, true, [ErrorPageRef(a.redirect.value.url, [418], code)]), None)
    else if a.ret.Some? then
      var code := if a.ret.value.code == 0 then 200 else a.ret.value.code;
      var contentType := if a.ret.value.contentType == "" then "text/plain" else a.ret.value.contentType;
      (Location(GeneratePath(path), None, true, [ErrorPageRef(ReturnName(ret), [418], code)]),
       Some(NamedLocation(ReturnName(ret), contentType, a.ret.value.body)))
    else
      var upstream := if a.proxy != "" then a.proxy else a.pass;
      (Location(GeneratePath(path), Some(place.prefix + "_" + upstream), |place.pages.pages| > 0, ErrorPages(place.pages)), None)
  }

  /** Where a location is: at an internal path, or at the path of a route. */
  datatype At = Internal(spot: Spot) | External(path: string)

  /** One location to generate. */
  datatype Item = Item(place: Place, at: At, action: Action)

  function PathOf(st: Settings, at: At): string {
    match at
    case Internal(spot) => st.namer.path(spot)
    case External(path) => path
  }

  function GenerateItem(st: Settings, item: Item, ret: nat): (Location, Option<NamedLocation>) {
    GenerateLocation(item.place, PathOf(st, item.at), item.action, ret)
  }

  predicate IsReturn(a: Action) { a.redirect.None? && a.ret.Some? }

  /** How many of the first `k` items have a named return location. */
  function ReturnsBefore(items: seq<Item>, k: nat): (n: nat)
    requires k <= |items|
  {
    if k == 0 then 0
    else ReturnsBefore(items, k - 1) + if IsReturn(items[k - 1].action) then 1 else 0
  }

  function Locations(st: Settings, items: seq<Item>, ret: nat): (r: seq<Location>)
    ensures |r| == |items|
  {
    if |items| == 0 then []
    else
      var g := GenerateItem(st, items[0], ret);
      [g.0] + Locations(st, items[1..], if g.1.Some? then ret + 1 else ret)
  }

  function Returns(st: Settings, items: seq<Item>, ret: nat): seq<NamedLocation>
  {
    if |items| == 0 then []
    else
      match GenerateItem(st, items[0], ret).1
      case None => Returns(st, items[1..], ret)
      case Some(loc) => [loc] + Returns(st, items[1..], ret + 1)
  }

  // ---- splits ----

  predicate IsTwoWay(st: Settings, splits: seq<Split>) { st.dynamic && |splits| == 2 }

  /** How many split clients a group of splits is given. */
  function Width(st: Settings, splits: seq<Split>): nat {
    if |splits| == 0 then 0 else if IsTwoWay(st, splits) then WEIGHT_CLIENTS else 1
  }

  function Distributions(st: Settings, splits: seq<Split>, sc: nat, i: nat): seq<Distribution>
    requires i <= |splits|
    decreases |splits| - i
  {
    if i == |splits| then []
    else if splits[i].weight == 0 then Distributions(st, splits, sc, i + 1)
    else [Distribution(splits[i].weight, st.namer.path(SplitSpot(sc, i)))] + Distributions(st, splits, sc, i + 1)
  }

  function WeightDistributions(st: Settings, sc: nat, i: nat, j: nat): seq<Distribution> {
    (if i > 0 then [Distribution(i, st.namer.path(SplitSpot(sc, 0)))] else []) +
    (if j > 0 then [Distribution(j, st.namer.path(SplitSpot(sc, 1)))] else [])
  }

  function WeightClient(st: Settings, sc: nat, i: nat): SplitClient
    requires i <= 100
  {
    SplitClient("$request_id", st.namer.variable(Weighted(sc, i, 100 - i)), WeightDistributions(st, sc, i, 100 - i))
  }

  function WeightClients(st: Settings, sc: nat): (r: seq<SplitClient>)
    ensures |r| == WEIGHT_CLIENTS
  {
    seq(WEIGHT_CLIENTS, i requires 0 <= i < WEIGHT_CLIENTS => WeightClient(st, sc, i))
  }

  function WeightParameter(st: Settings, sc: nat, i: nat): Parameter
    requires i <= 100
  {
    Parameter(st.namer.weightKey(sc, i, 100 - i), st.namer.variable(Weighted(sc, i, 100 - i)))
  }

  function WeightParameters(st: Settings, sc: nat): (r: seq<Parameter>)
    ensures |r| == WEIGHT_CLIENTS
  {
    seq(WEIGHT_CLIENTS, i requires 0 <= i < WEIGHT_CLIENTS => WeightParameter(st, sc, i))
  }

  /** The variable that takes over while no weights are stored: everything to the heavier
      split, to the first one when they weigh the same. */
  function FallbackVariable(st: Settings, sc: nat, splits: seq<Split>): string
    requires |splits| == 2
  {
    if splits[0].weight < splits[1].weight then st.namer.variable(Weighted(sc, 0, 100))
    else st.namer.variable(Weighted(sc, 100, 0))
  }

  function WeightMap(st: Settings, sc: nat, splits: seq<Split>): Map
    requires |splits| == 2
  {
    Map(st.namer.variable(Keyval(sc)), st.namer.variable(SplitMap(sc)),
        WeightParameters(st, sc) + [Parameter("default", FallbackVariable(st, sc, splits))])
  }

  /** A group of splits and the split-client index it was given. */
  datatype Group = Group(index: nat, splits: seq<Split>)

  function GroupClients(st: Settings, g: Group): (r: seq<SplitClient>)
    ensures |g.splits| > 0 ==> |r| == Width(st, g.splits)
  {
    if IsTwoWay(st, g.splits) then WeightClients(st, g.index)
    else [SplitClient("$request_id", st.namer.variable(Splits(g.index)), Distributions(st, g.splits, g.index, 0))]
  }

  function GroupMaps(st: Settings, g: Group): seq<Map> {
    if IsTwoWay(st, g.splits) then [WeightMap(st, g.index, g.splits)] else []
  }

  function GroupKeyVals(st: Settings, g: Group): seq<KeyVal> {
    if IsTwoWay(st, g.splits) then
      [KeyVal(st.namer.keyvalKey(g.index), st.namer.variable(Keyval(g.index)), st.namer.zone(g.index))]
    else []
  }

  function GroupTwoWay(st: Settings, g: Group): seq<TwoWaySplitClients> {
    if IsTwoWay(st, g.splits) then
      [TwoWaySplitClients(st.namer.keyvalKey(g.index), st.namer.variable(Keyval(g.index)), st.namer.zone(g.index),
                          (g.splits[0].weight, g.splits[1].weight), g.index)]
    else []
  }

  /** The string that stands for "wherever this group sends the request". */
  function GroupDestination(st: Settings, g: Group): string {
    if IsTwoWay(st, g.splits) then st.namer.variable(SplitMap(g.index)) else st.namer.variable(Splits(g.index))
  }

  function GroupItems(place: Place, g: Group): (r: seq<Item>)
    ensures |r| == |g.splits|
  {
    seq(|g.splits|, i requires 0 <= i < |g.splits| => Item(place, Internal(SplitSpot(g.index, i)), g.splits[i].action))
  }

  // ---- matches ----

  /** The NGINX variable a condition looks at. */
  function Subject(c: Condition): string {
    if c.header != "" then "$http_" + Underscored(c.header)
    else if c.cookie != "" then "$cookie_" + c.cookie
    else if c.argument != "" then "$arg_" + c.argument
    else c.variable
  }

  function Underscored(s: string): (r: string)
    ensures |r| == |s|
  {
    seq(|s|, i requires 0 <= i < |s| => if s[i] == '-' then '_' else s[i])
  }

  /** A condition value without the `!` that negates it. */
  function Wanted(value: string): string {
    if |value| > 0 && value[0] == '!' then value[1..] else value
  }

  predicate Negated(value: string) { |value| > 0 && value[0] == '!' }

  function ConditionKey(value: string): string {
    if |value| == 0 then "\"\""
    else
      var w := Wanted(value);
      if w in SPECIAL_PARAMETERS then "\\" + w else "\"" + w + "\""
  }

  function ConditionParameters(value: string, success: string): seq<Parameter> {
    if Negated(value) then [Parameter(ConditionKey(value), "0"), Parameter("default", success)]
    else [Parameter(ConditionKey(value), success), Parameter("default", "0")]
  }

  function ConditionMap(st: Settings, mi: nat, i: nat, cs: seq<Condition>, j: nat): Map
    requires j < |cs|
  {
    var success := if j + 1 < |cs| then st.namer.variable(Cond(mi, i, j + 1)) else "1";
    Map(Subject(cs[j]), st.namer.variable(Cond(mi, i, j)), ConditionParameters(cs[j].value, success))
  }

  function MatchMaps(st: Settings, mi: nat, i: nat, cs: seq<Condition>): (r: seq<Map>)
    ensures |r| == |cs|
  {
    seq(|cs|, j requires 0 <= j < |cs| => ConditionMap(st, mi, i, cs, j))
  }

  function ConditionMaps(st: Settings, mi: nat, ms: seq<Match>, i: nat): seq<Map>
    requires i <= |ms|
    decreases |ms| - i
  {
    if i == |ms| then [] else MatchMaps(st, mi, i, ms[i].conditions) + ConditionMaps(st, mi, ms, i + 1)
  }

  /** The split-client index of the splits of match `i`, or, for `i` past the last match,
      of the default splits. */
  function GroupIndex(st: Settings, ms: seq<Match>, i: nat, sc: nat): (r: nat)
    requires i <= |ms|
    ensures r >= sc
  {
    if i == 0 then sc else GroupIndex(st, ms, i - 1, sc) + Width(st, ms[i - 1].splits)
  }

  function Zeros(i: nat): (s: string)
    ensures |s| == i && forall k :: 0 <= k < i ==> s[k] == '0'
  {
    seq(i, _ => '0')
  }

  function MatchDestination(st: Settings, ms: seq<Match>, i: nat, mi: nat, sc: nat): string
    requires i < |ms|
  {
    if |ms[i].splits| > 0 then GroupDestination(st, Group(GroupIndex(st, ms, i, sc), ms[i].splits))
    else st.namer.path(MatchSpot(mi, i))
  }

  function MainParameter(st: Settings, ms: seq<Match>, i: nat, mi: nat, sc: nat): Parameter
    requires i < |ms|
  {
    Parameter("~^" + Zeros(i) + "1", MatchDestination(st, ms, i, mi, sc))
  }

  function MainParameters(st: Settings, ms: seq<Match>, mi: nat, sc: nat): (r: seq<Parameter>)
    ensures |r| == |ms|
  {
    seq(|ms|, i requires 0 <= i < |ms| => MainParameter(st, ms, i, mi, sc))
  }

  function MainSource(st: Settings, mi: nat, n: nat, i: nat): string
    requires i <= n
    decreases n - i
  {
    if i == n then "" else st.namer.variable(Cond(mi, i, 0)) + MainSource(st, mi, n, i + 1)
  }

  function DefaultDestination(st: Settings, r: Route, mi: nat, sc: nat): string {
    if |r.splits| > 0 then GroupDestination(st, Group(GroupIndex(st, r.matches, |r.matches|, sc), r.splits))
    else st.namer.path(DefaultSpot(mi))
  }

  function MainMap(st: Settings, r: Route, mi: nat, sc: nat): Map {
    Map(MainSource(st, mi, |r.matches|, 0), st.namer.variable(Main(mi)),
        MainParameters(st, r.matches, mi, sc) + [Parameter("default", DefaultDestination(st, r, mi, sc))])
  }

  // ---- a whole route ----

  function MatchGroup(st: Settings, ms: seq<Match>, i: nat, sc: nat): seq<Group>
    requires i < |ms|
  {
    if |ms[i].splits| > 0 then [Group(GroupIndex(st, ms, i, sc), ms[i].splits)] else []
  }

  function MatchGroups(st: Settings, ms: seq<Match>, i: nat, sc: nat): seq<Group>
    requires i <= |ms|
    decreases |ms| - i
  {
    if i == |ms| then [] else MatchGroup(st, ms, i, sc) + MatchGroups(st, ms, i + 1, sc)
  }

  function DefaultGroup(st: Settings, r: Route, sc: nat): seq<Group> {
    if |r.splits| > 0 then [Group(GroupIndex(st, r.matches, |r.matches|, sc), r.splits)] else []
  }

  function RouteGroups(st: Settings, r: Route, sc: nat): seq<Group> {
    MatchGroups(st, r.matches, 0, sc) + DefaultGroup(st, r, sc)
  }

  function MatchItems(st: Settings, place: Place, ms: seq<Match>, i: nat, mi: nat, sc: nat): seq<Item>
    requires i < |ms|
  {
    if |ms[i].splits| > 0 then GroupItems(place, Group(GroupIndex(st, ms, i, sc), ms[i].splits))
    else [Item(place, Internal(MatchSpot(mi, i)), ms[i].action)]
  }

  function AllMatchItems(st: Settings, place: Place, ms: seq<Match>, i: nat, mi: nat, sc: nat): seq<Item>
    requires i <= |ms|
    decreases |ms| - i
  {
    if i == |ms| then [] else MatchItems(st, place, ms, i, mi, sc) + AllMatchItems(st, place, ms, i + 1, mi, sc)
  }

  function DefaultItems(st: Settings, place: Place, r: Route, mi: nat, sc: nat): seq<Item> {
    if |r.splits| > 0 then GroupItems(place, Group(GroupIndex(st, r.matches, |r.matches|, sc), r.splits))
    else if |r.matches| > 0 then [Item(place, Internal(DefaultSpot(mi)), r.action)]
    else [Item(place, External(r.path), r.action)]
  }

  function RouteItems(st: Settings, place: Place, r: Route, mi: nat, sc: nat): seq<Item> {
    AllMatchItems(st, place, r.matches, 0, mi, sc) + DefaultItems(st, place, r, mi, sc)
  }

  function ClientsOf(st: Settings, gs: seq<Group>): seq<SplitClient> {
    if |gs| == 0 then [] else GroupClients(st, gs[0]) + ClientsOf(st, gs[1..])
  }

  function MapsOf(st: Settings, gs: seq<Group>): seq<Map> {
    if |gs| == 0 then [] else GroupMaps(st, gs[0]) + MapsOf(st, gs[1..])
  }

  function KeyValsOf(st: Settings, gs: seq<Group>): seq<KeyVal> {
    if |gs| == 0 then [] else GroupKeyVals(st, gs[0]) + KeyValsOf(st, gs[1..])
  }

  function TwoWayOf(st: Settings, gs: seq<Group>): seq<TwoWaySplitClients> {
    if |gs| == 0 then [] else GroupTwoWay(st, gs[0]) + TwoWayOf(st, gs[1..])
  }

  /** How many split clients a route is given. */
  function RouteWidth(st: Settings, r: Route): nat {
    GroupIndex(st, r.matches, |r.matches|, 0) + Width(st, r.splits)
  }

  function MatchesMaps(st: Settings, r: Route, mi: nat, sc: nat): seq<Map> {
    if |r.matches| > 0 then ConditionMaps(st, mi, r.matches, 0) + [MainMap(st, r, mi, sc)] else []
  }

  function RouteMaps(st: Settings, r: Route, mi: nat, sc: nat): seq<Map> {
    MatchesMaps(st, r, mi, sc) + MapsOf(st, RouteGroups(st, r, sc))
  }

  /** A route with neither matches nor splits is served by its own location; any other
      by a redirect to wherever its main variable leads. */
  function RouteRedirect(st: Settings, r: Route, mi: nat, sc: nat): seq<InternalRedirect> {
    if |r.matches| > 0 then [InternalRedirect(GeneratePath(r.path), st.namer.variable(Main(mi)))]
    else if |r.splits| > 0 then [InternalRedirect(GeneratePath(r.path), GroupDestination(st, Group(sc, r.splits)))]
    else []
  }
}
