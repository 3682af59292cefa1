/** A whole VirtualServer: its routes, the subroutes of its VirtualServerRoutes, their error
    pages and named locations, and what the generated configuration does with a request. */
module VirtualServers {
  import opened Text
  import opened Nginx
  import opened LocationChoice
  import opened Routes
  import opened Compile
  import opened VariableNames
  import opened Layout
  import opened RouteMeaning
  import opened Definitions

  /** `hosts` lists the VirtualServerRoutes that a route hands over to; a route that hands
      over generates no location of its own. */
  datatype SpecRoute = OwnRoute(route: Route) | HandOver(errorPages: Option<seq<ErrorPage>>, hosts: seq<string>)

  datatype VirtualServerRoute = VirtualServerRoute(key: string, prefix: string, subroutes: seq<Route>)

  datatype VirtualServer = VirtualServer(
    prefix: string,
    routes: seq<SpecRoute>,
    hosts: seq<VirtualServerRoute>,
    specMaps: seq<Map>,
    keyMaps: seq<Map>,
    added: AddedBlocks)

  /** The location blocks that policies and snippets add to the server: those written before the
      redirects of routes and those written after. They may be any blocks. */
  datatype AddedBlocks = AddedBlocks(early: seq<Pattern>, late: seq<Pattern>)

  predicate ValidVirtualServer(vs: VirtualServer) {
    && (forall r :: r in vs.routes && r.OwnRoute? ==> ValidRoute(r.route))
    && (forall r :: r in vs.routes && r.HandOver? ==> ValidPages(PagesOf(r.errorPages)))
    && (forall h :: h in vs.hosts ==> forall r :: r in h.subroutes ==> ValidRoute(r))
    && PolicyMaps(vs.specMaps) && PolicyMaps(vs.keyMaps)
  }

  // ---- error pages ----

  function PagesOf(pages: Option<seq<ErrorPage>>): seq<ErrorPage> {
    match pages
    case None => []
    case Some(ps) => ps
  }

  /** The named locations of a list of error pages from the `i`-th on; a redirect needs none. */
  function PageLocations(d: PageDetails, i: nat): seq<NamedLocation>
    requires i <= |d.pages|
    decreases |d.pages| - i
  {
    if i == |d.pages| then []
    else if d.pages[i].redirect.Some? then PageLocations(d, i + 1)
    else [PageLocation(d, i)] + PageLocations(d, i + 1)
  }

  function PageLocation(d: PageDetails, i: nat): NamedLocation
    requires i < |d.pages|
  {
    var ret := d.pages[i].ret;
    NamedLocation(ErrorPageName(d.index, i), if ret.contentType == "" then "text/html" else ret.contentType, ret.body)
  }

  /** The state of the pass over all routes: the routes to generate, the named locations of
      error pages, and the error pages that VirtualServerRoutes inherit. */
  datatype Pass = Pass(jobs: seq<Job>, pages: seq<NamedLocation>, inherited: map<string, PageDetails>)

  function Inherit(m: map<string, PageDetails>, hosts: seq<string>, d: PageDetails): map<string, PageDetails>
    decreases |hosts|
  {
    if |hosts| == 0 then m else Inherit(m[hosts[0] := d], hosts[1..], d)
  }

  function RouteStep(prefix: string, s: Pass, r: SpecRoute): Pass {
    match r
    case OwnRoute(route) =>
      var d := PageDetails(PagesOf(route.errorPages), |s.pages|);
      Pass(s.jobs + [Job(Place(prefix, d), route)], s.pages + PageLocations(d, 0), s.inherited)
    case HandOver(pages, hosts) =>
      var d := PageDetails(PagesOf(pages), |s.pages|);
      Pass(s.jobs, s.pages + PageLocations(d, 0),
           if |d.pages| > 0 then Inherit(s.inherited, hosts, d) else s.inherited)
  }

  function SubrouteStep(h: VirtualServerRoute, s: Pass, route: Route): Pass {
    var own := PageDetails(PagesOf(route.errorPages), |s.pages|);
    var d := if route.errorPages.None? && h.key in s.inherited then s.inherited[h.key] else own;
    Pass(s.jobs + [Job(Place(h.prefix, d), route)], s.pages + PageLocations(own, 0), s.inherited)
  }

  function RoutesPass(prefix: string, s: Pass, rs: seq<SpecRoute>): Pass
    decreases |rs|
  {
    if |rs| == 0 then s else RoutesPass(prefix, RouteStep(prefix, s, rs[0]), rs[1..])
  }

  function SubroutesPass(h: VirtualServerRoute, s: Pass, rs: seq<Route>): Pass
    decreases |rs|
  {
    if |rs| == 0 then s else SubroutesPass(h, SubrouteStep(h, s, rs[0]), rs[1..])
  }

  function HostsPass(s: Pass, hs: seq<VirtualServerRoute>): Pass
    decreases |hs|
  {
    if |hs| == 0 then s else HostsPass(SubroutesPass(hs[0], s, hs[0].subroutes), hs[1..])
  }

  const EMPTY_PASS: Pass := Pass([], [], map[])

  function WholePass(vs: VirtualServer): Pass { HostsPass(RoutesPass(vs.prefix, EMPTY_PASS, vs.routes), vs.hosts) }

  // ---- error pages resolve ----

  /** Exactly one location has this name, and it is `loc`. */
  ghost predicate OnlyOne(locs: seq<NamedLocation>, loc: NamedLocation) {
    && loc in locs
    && forall i, j :: 0 <= i < |locs| && 0 <= j < |locs| && locs[i].name == loc.name && locs[j].name == loc.name ==>
         i == j && locs[i] == loc
  }

  /** Every page of `d` that is not a redirect has its own named location. */
  ghost predicate PagesResolve(d: PageDetails, locs: seq<NamedLocation>) {
    forall i :: 0 <= i < |d.pages| && d.pages[i].redirect.None? ==> OnlyOne(locs, PageLocation(d, i))
  }

  ghost predicate IndexBelow(name: string, n: nat) {
    exists x: nat, i: nat :: name == ErrorPageName(x, i) && x < n
  }

  /** Every location carries, in its name, an index below their number. */
  ghost predicate Numbered(locs: seq<NamedLocation>) {
    forall k :: 0 <= k < |locs| ==> IndexBelow(locs[k].name, |locs|)
  }

  ghost predicate PassInvariant(s: Pass) {
    && Numbered(s.pages)
    && (forall j :: j in s.jobs ==> PagesResolve(j.place.pages, s.pages))
    && (forall h :: h in s.inherited ==> PagesResolve(s.inherited[h], s.pages))
  }

  lemma ErrorPageNameInjective(x: nat, i: nat, y: nat, j: nat)
    requires ErrorPageName(x, i) == ErrorPageName(y, j)
    ensures x == y && i == j
  {
    var a, b := [Dec(x), Dec(i)], [Dec(y), Dec(j)];
    var n := |"@error_page_"|;
    assert ErrorPageName(x, i)[n..] == Join(a) && ErrorPageName(y, j)[n..] == Join(b);
    assert forall k :: 0 <= k < |Dec(x)| ==> IsDigit(Dec(x)[k]);
    JoinInjective(a, b);
    assert a[0] == b[0] && a[1] == b[1];
    DecInjective(x, y);
    DecInjective(i, j);
  }

  lemma {:induction false} PageLocationsSpec(d: PageDetails, i: nat)
    requires i <= |d.pages|
    ensures var locs := PageLocations(d, i);
            && (forall k :: i <= k < |d.pages| && d.pages[k].redirect.None? ==> PageLocation(d, k) in locs)
            && (forall a :: 0 <= a < |locs| ==> exists k: nat :: i <= k < |d.pages| && locs[a] == PageLocation(d, k))
            && (forall a, b :: 0 <= a < b < |locs| ==> locs[a].name != locs[b].name)
    decreases |d.pages| - i
  {
    if i < |d.pages| {
      PageLocationsSpec(d, i + 1);
      var locs, rest := PageLocations(d, i), PageLocations(d, i + 1);
      if d.pages[i].redirect.None? {
        forall b | 0 <= b < |rest| ensures rest[b].name != PageLocation(d, i).name {
          var k: nat :| i + 1 <= k < |d.pages| && rest[b] == PageLocation(d, k);
          if rest[b].name == PageLocation(d, i).name { ErrorPageNameInjective(d.index, k, d.index, i); }
        }
        assert locs == [PageLocation(d, i)] + rest;
      }
    }
  }

  /** A location that resolved before resolves after more pages are added with a fresh index. */
  lemma OnlyOneKept(locs: seq<NamedLocation>, loc: NamedLocation, d: PageDetails)
    requires OnlyOne(locs, loc) && Numbered(locs) && d.index == |locs|
    ensures OnlyOne(locs + PageLocations(d, 0), loc)
  {
    PageLocationsSpec(d, 0);
    var more := PageLocations(d, 0);
    var k :| 0 <= k < |locs| && locs[k] == loc;
    assert IndexBelow(loc.name, |locs|);
    var x: nat, i: nat :| loc.name == ErrorPageName(x, i) && x < |locs|;
    forall a | 0 <= a < |more| ensures more[a].name != loc.name {
      var p: nat :| 0 <= p < |d.pages| && more[a] == PageLocation(d, p);
      if more[a].name == loc.name { ErrorPageNameInjective(d.index, p, x, i); }
    }
  }

  lemma NewPagesResolve(locs: seq<NamedLocation>, d: PageDetails)
    requires Numbered(locs) && d.index == |locs|
    ensures PagesResolve(d, locs + PageLocations(d, 0))
  {
    PageLocationsSpec(d, 0);
    var more := PageLocations(d, 0);
    forall i | 0 <= i < |d.pages| && d.pages[i].redirect.None? ensures OnlyOne(locs + more, PageLocation(d, i)) {
      var loc := PageLocation(d, i);
      forall k | 0 <= k < |locs| ensures locs[k].name != loc.name {
        assert IndexBelow(locs[k].name, |locs|);
        var x: nat, y: nat :| locs[k].name == ErrorPageName(x, y) && x < |locs|;
        if locs[k].name == loc.name { ErrorPageNameInjective(d.index, i, x, y); }
      }
    }
  }

  lemma NumberedKept(locs: seq<NamedLocation>, d: PageDetails)
    requires Numbered(locs) && d.index == |locs|
    ensures Numbered(locs + PageLocations(d, 0))
  {
    PageLocationsSpec(d, 0);
    var more := PageLocations(d, 0);
    var all := locs + more;
    forall k | 0 <= k < |all| ensures IndexBelow(all[k].name, |all|) {
      if k < |locs| {
        assert IndexBelow(locs[k].name, |locs|);
      } else {
        var p: nat :| 0 <= p < |d.pages| && more[k - |locs|] == PageLocation(d, p);
        assert all[k].name == ErrorPageName(d.index, p) && d.index < |all|;
      }
    }
  }

  lemma AddPages(s: Pass, d: PageDetails, s': Pass)
    requires PassInvariant(s) && d.index == |s.pages|
    requires s'.pages == s.pages + PageLocations(d, 0)
    requires forall j :: j in s'.jobs ==>
      j in s.jobs || j.place.pages == d || exists h :: h in s.inherited && s.inherited[h] == j.place.pages
    requires forall h :: h in s'.inherited ==>
      s'.inherited[h] == d || (h in s.inherited && s'.inherited[h] == s.inherited[h])
    ensures PassInvariant(s')
  {
    hide Numbered, OnlyOne, PageLocations;
    NumberedKept(s.pages, d);
    NewPagesResolve(s.pages, d);
    forall d' | PagesResolve(d', s.pages) ensures PagesResolve(d', s'.pages) {
      forall i | 0 <= i < |d'.pages| && d'.pages[i].redirect.None? ensures OnlyOne(s'.pages, PageLocation(d', i)) {
        OnlyOneKept(s.pages, PageLocation(d', i), d);
      }
    }
  }

  lemma {:induction false} InheritSpec(m: map<string, PageDetails>, hosts: seq<string>, d: PageDetails)
    ensures forall h :: h in Inherit(m, hosts, d) ==>
              (h in hosts && Inherit(m, hosts, d)[h] == d) || (h in m && Inherit(m, hosts, d)[h] == m[h])
    ensures forall h :: h in hosts ==> h in Inherit(m, hosts, d) && Inherit(m, hosts, d)[h] == d
    ensures forall h :: h in m && h !in hosts ==> h in Inherit(m, hosts, d) && Inherit(m, hosts, d)[h] == m[h]
    decreases |hosts|
  {
    if |hosts| > 0 {
      InheritSpec(m[hosts[0] := d], hosts[1..], d);
      InheritLast(m[hosts[0] := d], hosts[1..], d, hosts[0]);
    }
  }

  lemma {:induction false} InheritLast(m: map<string, PageDetails>, hosts: seq<string>, d: PageDetails, h: string)
    requires h in m && m[h] == d
    ensures h in Inherit(m, hosts, d) && Inherit(m, hosts, d)[h] == d
    decreases |hosts|
  {
    if |hosts| > 0 {
      InheritLast(m[hosts[0] := d], hosts[1..], d, h);
    }
  }

  lemma {:induction false} RoutesPassInvariant(prefix: string, s: Pass, rs: seq<SpecRoute>)
    requires PassInvariant(s)
    ensures PassInvariant(RoutesPass(prefix, s, rs))
    decreases |rs|
  {
    if |rs| > 0 {
      var s' := RouteStep(prefix, s, rs[0]);
      var d := PageDetails(PagesOf(if rs[0].OwnRoute? then rs[0].route.errorPages else rs[0].errorPages), |s.pages|);
      if rs[0].HandOver? { InheritSpec(s.inherited, rs[0].hosts, d); }
      hide PassInvariant, PageLocations;
      AddPages(s, d, s');
      RoutesPassInvariant(prefix, s', rs[1..]);
    }
  }

  lemma {:induction false} SubroutesPassInvariant(h: VirtualServerRoute, s: Pass, rs: seq<Route>)
    requires PassInvariant(s)
    ensures PassInvariant(SubroutesPass(h, s, rs))
    decreases |rs|
  {
    if |rs| > 0 {
      hide PassInvariant, PageLocations;
      AddPages(s, PageDetails(PagesOf(rs[0].errorPages), |s.pages|), SubrouteStep(h, s, rs[0]));
      SubroutesPassInvariant(h, SubrouteStep(h, s, rs[0]), rs[1..]);
    }
  }

  lemma {:induction false} HostsPassInvariant(s: Pass, hs: seq<VirtualServerRoute>)
    requires PassInvariant(s)
    ensures PassInvariant(HostsPass(s, hs))
    decreases |hs|
  {
    if |hs| > 0 {
      SubroutesPassInvariant(hs[0], s, hs[0].subroutes);
      HostsPassInvariant(SubroutesPass(hs[0], s, hs[0].subroutes), hs[1..]);
    }
  }

  /** Over the whole pass, every error page of a route, its own or one inherited from the route
      that hands over to it, has its own named location, defined exactly once. */
  lemma ErrorPagesResolve(vs: VirtualServer)
    ensures Numbered(WholePass(vs).pages)
    ensures forall j :: j in WholePass(vs).jobs ==> PagesResolve(j.place.pages, WholePass(vs).pages)
  {
    RoutesPassInvariant(vs.prefix, EMPTY_PASS, vs.routes);
    HostsPassInvariant(RoutesPass(vs.prefix, EMPTY_PASS, vs.routes), vs.hosts);
  }

  predicate PagesValid(s: Pass) {
    && (forall j :: j in s.jobs ==> ValidPages(j.place.pages.pages))
    && (forall h :: h in s.inherited ==> ValidPages(s.inherited[h].pages))
  }

  lemma {:induction false} RoutesPagesValid(prefix: string, s: Pass, rs: seq<SpecRoute>)
    requires PagesValid(s)
    requires forall r :: r in rs ==> if r.OwnRoute? then ValidRoute(r.route) else ValidPages(PagesOf(r.errorPages))
    ensures PagesValid(RoutesPass(prefix, s, rs))
    decreases |rs|
  {
    if |rs| > 0 {
      assert rs[0] in rs;
      assert rs[0].OwnRoute? ==> ValidPages(PagesOf(rs[0].route.errorPages));
      var d := PageDetails(PagesOf(if rs[0].OwnRoute? then rs[0].route.errorPages else rs[0].errorPages), |s.pages|);
      if rs[0].HandOver? { InheritSpec(s.inherited, rs[0].hosts, d); }
      hide ValidRoute, ValidPages, PageLocations, Inherit;
      assert PagesValid(RouteStep(prefix, s, rs[0]));
      RoutesPagesValid(prefix, RouteStep(prefix, s, rs[0]), rs[1..]);
    }
  }

  lemma RoutePages(r: Route)
    requires ValidRoute(r)
    ensures ValidPages(PagesOf(r.errorPages))
  {
  }

  lemma {:induction false} SubroutesPagesValid(h: VirtualServerRoute, s: Pass, rs: seq<Route>)
    requires PagesValid(s) && forall r :: r in rs ==> ValidRoute(r)
    ensures PagesValid(SubroutesPass(h, s, rs))
    decreases |rs|
  {
    if |rs| > 0 {
      RoutePages(rs[0]);
      hide ValidRoute, ValidPages, PageLocations;
      assert PagesValid(SubrouteStep(h, s, rs[0]));
      SubroutesPagesValid(h, SubrouteStep(h, s, rs[0]), rs[1..]);
    }
  }

  lemma {:induction false} HostsPagesValid(s: Pass, hs: seq<VirtualServerRoute>)
    requires PagesValid(s) && forall h :: h in hs ==> forall r :: r in h.subroutes ==> ValidRoute(r)
    ensures PagesValid(HostsPass(s, hs))
    decreases |hs|
  {
    if |hs| > 0 {
      hide ValidRoute, PagesValid;
      SubroutesPagesValid(hs[0], s, hs[0].subroutes);
      HostsPagesValid(SubroutesPass(hs[0], s, hs[0].subroutes), hs[1..]);
    }
  }

  // ---- return locations ----

  lemma {:induction false} ReturnsBeforeTail(items: seq<Item>, k: nat)
    requires 0 < k <= |items|
    ensures ReturnsBefore(items, k) == (if IsReturn(items[0].action) then 1 else 0) + ReturnsBefore(items[1..], k - 1)
  {
    if k > 1 {
      ReturnsBeforeTail(items, k - 1);
    }
  }

  lemma GeneratesReturn(st: Settings, item: Item, ret: nat)
    ensures GenerateItem(st, item, ret).1.Some? <==> IsReturn(item.action)
    ensures IsReturn(item.action) ==> GenerateItem(st, item, ret).1.value.name == ReturnName(ret)
  {
  }

  /** Item `k` is generated with the number of return locations before it, and its named
      location is the one at that position. */
  lemma {:induction false} LocationsSpec(st: Settings, items: seq<Item>, ret: nat, k: nat)
    requires k < |items|
    ensures Locations(st, items, ret)[k] == GenerateItem(st, items[k], ret + ReturnsBefore(items, k)).0
    ensures IsReturn(items[k].action) ==>
              && ReturnsBefore(items, k) < |Returns(st, items, ret)|
              && Returns(st, items, ret)[ReturnsBefore(items, k)] ==
                 GenerateItem(st, items[k], ret + ReturnsBefore(items, k)).1.value
  {
    hide GenerateItem, IsReturn;
    GeneratesReturn(st, items[0], ret);
    if k > 0 {
      ReturnsBeforeTail(items, k);
      var one := if IsReturn(items[0].action) then 1 else 0;
      LocationsSpec(st, items[1..], ret + one, k - 1);
    }
  }

  /** The return locations are exactly `@return_0` to `@return_{n-1}`, in order. */
  lemma {:induction false} ReturnNames(st: Settings, items: seq<Item>, ret: nat)
    ensures |Returns(st, items, ret)| == ReturnsBefore(items, |items|)
    ensures forall i :: 0 <= i < |Returns(st, items, ret)| ==> Returns(st, items, ret)[i].name == ReturnName(ret + i)
  {
    if |items| > 0 {
      hide GenerateItem, IsReturn, ReturnName;
      GeneratesReturn(st, items[0], ret);
      ReturnsBeforeTail(items, |items|);
      ReturnNames(st, items[1..], if IsReturn(items[0].action) then ret + 1 else ret);
    }
  }

  // ---- what a location does ----

  function FindNamed(locs: seq<NamedLocation>, name: string): Option<NamedLocation> {
    if |locs| == 0 then None
    else if locs[0].name == name then Some(locs[0])
    else FindNamed(locs[1..], name)
  }

  /** The first reference for a status, or the number of references. */
  function RefFor(refs: seq<ErrorPageRef>, status: int): (i: nat)
    ensures i <= |refs| && (i < |refs| ==> status in refs[i].codes)
    ensures forall j :: 0 <= j < i ==> status !in refs[j].codes
  {
    if |refs| == 0 || status in refs[0].codes then 0 else 1 + RefFor(refs[1..], status)
  }

  /** The status that the internal server answers with. */
  const TEAPOT := 418

  /** What a request that reaches a location gets when the upstream, if there is one, answers with
      this status: that answer, or what the first error page for it says. NGINX replaces only
      answers from 300 on. */
  function Outcome(named: seq<NamedLocation>, loc: Location, status: int): Option<Effect> {
    var answer := if loc.upstream.Some? then status else TEAPOT;
    var i := RefFor(loc.errorPages, answer);
    if !loc.intercepts || answer < 300 || i == |loc.errorPages| then
      (if loc.upstream.Some? then Some(Proxied(loc.upstream.value)) else None)
    else
      var page := loc.errorPages[i];
      if StartsWith(page.name, "@") then
        match FindNamed(named, page.name)
        case None => None
        case Some(n) => Some(Responded(if page.code == 0 then answer else page.code, n.contentType, n.body))
      else Some(Redirected(page.name, page.code))
  }

  lemma ReturnNameInjective(a: nat, b: nat)
    requires ReturnName(a) == ReturnName(b)
    ensures a == b
  {
    assert ReturnName(a)[8..] == Dec(a) && ReturnName(b)[8..] == Dec(b);
    DecInjective(a, b);
  }

  lemma {:induction false} FindReturn(locs: seq<NamedLocation>, rest: seq<NamedLocation>, ret: nat, i: nat)
    requires i < |locs| && forall k :: 0 <= k < |locs| ==> locs[k].name == ReturnName(ret + k)
    ensures FindNamed(locs + rest, ReturnName(ret + i)) == Some(locs[i])
  {
    if i > 0 {
      if ReturnName(ret + i) == ReturnName(ret) { ReturnNameInjective(ret + i, ret); }
      assert (locs + rest)[1..] == locs[1..] + rest;
      FindReturn(locs[1..], rest, ret + 1, i - 1);
    }
  }

  lemma FindOnly(locs: seq<NamedLocation>, loc: NamedLocation)
    requires OnlyOne(locs, loc)
    ensures FindNamed(locs, loc.name) == Some(loc)
  {
    var k :| 0 <= k < |locs| && locs[k] == loc;
    FindFirst(locs, loc.name, k);
  }

  lemma {:induction false} FindFirst(locs: seq<NamedLocation>, name: string, k: nat)
    requires k < |locs| && locs[k].name == name && forall i :: 0 <= i < k ==> locs[i].name != name
    ensures FindNamed(locs, name) == Some(locs[k])
  {
    if k > 0 {
      FindFirst(locs[1..], name, k - 1);
    }
  }

  lemma SamePage(d: PageDetails, status: int)
    ensures RefFor(ErrorPages(d), status) == PageFor(d.pages, status)
  {
    var refs, i, j := ErrorPages(d), RefFor(ErrorPages(d), status), PageFor(d.pages, status);
    assert forall k :: 0 <= k < |refs| ==> refs[k].codes == d.pages[k].codes;
    hide ErrorPages, RefFor, PageFor;
  }

  /** Every generated location does what its action and its error pages say, whatever the upstream
      answers. */
  lemma LocationMeaning(st: Settings, items: seq<Item>, k: nat, pages: seq<NamedLocation>, status: int)
    requires k < |items| && ValidAction(items[k].action) && ValidPages(items[k].place.pages.pages)
    requires Numbered(pages) && PagesResolve(items[k].place.pages, pages)
    ensures Outcome(Returns(st, items, 0) + pages, Locations(st, items, 0)[k], status) ==
            Some(Answered(items[k].place.prefix, items[k].place.pages.pages, items[k].action, status))
  {
    hide Locations, Returns, GenerateItem, Numbered, PagesResolve, Outcome, Answered, ValidPages;
    LocationsSpec(st, items, 0, k);
    ReturnNames(st, items, 0);
    var m, named, a := ReturnsBefore(items, k), Returns(st, items, 0), items[k].action;
    if IsReturn(a) {
      FindReturn(named, pages, 0, m);
      GeneratesReturn(st, items[k], m);
      ReturnOutcome(st, items[k], m, named + pages, status);
    } else if a.redirect.Some? {
      RedirectOutcome(st, items[k], m, named + pages, status);
    } else {
      ProxyOutcome(st, items[k], m, named, pages, status);
    }
  }

  lemma OneRef(ref: ErrorPageRef, status: int)
    ensures status in ref.codes ==> RefFor([ref], status) == 0
  {
  }

  lemma ReturnOutcome(st: Settings, item: Item, ret: nat, named: seq<NamedLocation>, status: int)
    requires IsReturn(item.action) && FindNamed(named, ReturnName(ret)) == GenerateItem(st, item, ret).1
    ensures Outcome(named, GenerateItem(st, item, ret).0, status) == Some(Answered(item.place.prefix, item.place.pages.pages, item.action, status))
  {
    assert StartsWith(ReturnName(ret), "@");
    OneRef(GenerateItem(st, item, ret).0.errorPages[0], TEAPOT);
    hide ReturnName, RefFor, PageFor, FindNamed;
  }

  lemma RedirectOutcome(st: Settings, item: Item, ret: nat, named: seq<NamedLocation>, status: int)
    requires item.action.redirect.Some? && ValidAction(item.action)
    ensures Outcome(named, GenerateItem(st, item, ret).0, status) == Some(Answered(item.place.prefix, item.place.pages.pages, item.action, status))
  {
    OneRef(GenerateItem(st, item, ret).0.errorPages[0], TEAPOT);
    hide RefFor, PageFor, FindNamed;
  }

  /** The reference to a page that is no redirect finds the page's location. */
  lemma PageIsFound(named: seq<NamedLocation>, pages: seq<NamedLocation>, d: PageDetails, i: nat)
    requires i < |d.pages| && d.pages[i].redirect.None? && Numbered(pages) && PagesResolve(d, pages)
    requires forall i :: 0 <= i < |named| ==> named[i].name == ReturnName(i)
    ensures FindNamed(named + pages, ErrorPageName(d.index, i)) == Some(PageLocation(d, i)) && StartsWith(ErrorPageName(d.index, i), "@")
  {
    PageAlone(named, pages, PageLocation(d, i));
    FindOnly(named + pages, PageLocation(d, i));
  }

  lemma ProxyOutcome(st: Settings, item: Item, ret: nat, named: seq<NamedLocation>, pages: seq<NamedLocation>, status: int)
    requires item.action.redirect.None? && item.action.ret.None? && ValidPages(item.place.pages.pages)
    requires Numbered(pages) && PagesResolve(item.place.pages, pages)
    requires forall i :: 0 <= i < |named| ==> named[i].name == ReturnName(i)
    ensures Outcome(named + pages, GenerateItem(st, item, ret).0, status) ==
            Some(Answered(item.place.prefix, item.place.pages.pages, item.action, status))
  {
    hide PageFor, RefFor, FindNamed, ErrorPageName, ReturnName, Numbered, PagesResolve, GeneratePath;
    var d := item.place.pages;
    var i := PageFor(d.pages, status);
    SamePage(d, status);
    if i < |d.pages| {
      assert d.pages[i] in d.pages && 300 <= status;
      if d.pages[i].redirect.None? {
        PageIsFound(named, pages, d, i);
      }
    }
  }

  // ---- every selectable destination is one location ----

  lemma {:induction false} AllMatchItemsCarry(st: Settings, place: Place, ms: seq<Match>, k: nat, i: nat, mi: nat, sc: nat)
    requires k <= i < |ms|
    ensures forall x :: x in MatchItems(st, place, ms, i, mi, sc) ==> x in AllMatchItems(st, place, ms, k, mi, sc)
    decreases i - k
  {
    hide MatchItems;
    if k < i {
      AllMatchItemsCarry(st, place, ms, k + 1, i, mi, sc);
    }
  }

  /** The internal location a request is sent to carries the action its route asks for. */
  lemma RequestItem(st: Settings, place: Place, r: Route, mi: nat, sc: nat, q: Request)
    requires ValidRoute(r) && (|r.matches| > 0 || |r.splits| > 0)
    ensures Item(place, Internal(RequestSpot(st, r, mi, sc, q)), RequestAction(st, r, sc, q)) in RouteItems(st, place, r, mi, sc)
  {
    var k, g := FirstMatch(r.matches, 0, q), RequestGroup(st, r, sc, q);
    var item := Item(place, Internal(RequestSpot(st, r, mi, sc, q)), RequestAction(st, r, sc, q));
    hide ValidRoute, SelectedSplit, Shares, AllHold;
    if |g.splits| > 0 {
      assert GroupItems(place, g)[SelectedSplit(st, g, q)] == item;
    }
    if k < |r.matches| {
      assert item in MatchItems(st, place, r.matches, k, mi, sc);
      AllMatchItemsCarry(st, place, r.matches, 0, k, mi, sc);
    } else {
      assert item in DefaultItems(st, place, r, mi, sc);
    }
  }

  lemma {:induction false} ItemMember(st: Settings, pls: seq<Placed>, pl: Placed)
    requires pl in pls
    ensures forall x :: x in PlacedItems(st, pl) ==> x in ItemsOf(st, pls)
  {
    hide RouteItems;
    if pl != pls[0] {
      ItemMember(st, pls[1..], pl);
    }
  }

  lemma {:induction false} ItemOrigin(st: Settings, pls: seq<Placed>, x: Item) returns (pl: Placed)
    requires x in ItemsOf(st, pls)
    ensures pl in pls && x in PlacedItems(st, pl)
  {
    hide RouteItems;
    if x in PlacedItems(st, pls[0]) {
      pl := pls[0];
    } else {
      pl := ItemOrigin(st, pls[1..], x);
    }
  }

  lemma PlainPathUnchanged(p: string)
    requires |p| > 0 && p[0] == '/'
    ensures GeneratePath(p) == p
  {
  }

  lemma InternalPathUnchanged(st: Settings, spot: Spot)
    requires Readable(st.namer)
    ensures GeneratePath(st.namer.path(spot)) == st.namer.path(spot)
  {
    hide GeneratePath;
    PlainPathUnchanged(st.namer.path(spot));
  }

  lemma SamePathSameSpot(nm: Namer, s: Spot, s': Spot)
    requires Distinct(nm) && nm.path(s) == nm.path(s')
    ensures s == s'
  {
  }

  lemma LocationPath(st: Settings, items: seq<Item>, k: nat)
    requires k < |items|
    ensures Locations(st, items, 0)[k].path == GeneratePath(PathOf(st, items[k].at))
  {
    hide Locations, GenerateItem, GeneratePath, PathOf, ReturnsBefore;
    LocationsSpec(st, items, 0, k);
    ItemPath(st, items[k], ReturnsBefore(items, k));
  }

  lemma ItemPath(st: Settings, item: Item, ret: nat)
    ensures GenerateItem(st, item, ret).0.path == GeneratePath(PathOf(st, item.at))
  {
    hide GeneratePath;
  }

  // ---- the whole configuration ----

  datatype Config = Config(
    program: Program,
    twoWay: seq<TwoWaySplitClients>,
    redirects: seq<InternalRedirect>,
    locations: seq<Location>,
    named: seq<NamedLocation>,
    pages: seq<NamedLocation>,
    added: AddedBlocks)

  function ConfigOf(st: Settings, vs: VirtualServer): Config {
    var pass := WholePass(vs);
    var pls := Lay(st, pass.jobs, 0, 0);
    var items := ItemsOf(st, pls);
    Config(ProgramOf(st, vs.specMaps, pls, vs.keyMaps), TwoWayOf(st, GroupsOf(st, pls)), RedirectsOf(st, pls),
           Locations(st, items, 0), Returns(st, items, 0), pass.pages, vs.added)
  }

  predicate IsPlain(r: Route) { |r.matches| == 0 && |r.splits| == 0 }

  // ---- location blocks ----

  function RedirectBlocks(redirects: seq<InternalRedirect>): (r: seq<Pattern>)
    ensures |r| == |redirects| && forall i :: 0 <= i < |redirects| ==> r[i] == ReadPath(redirects[i].path)
  {
    seq(|redirects|, i requires 0 <= i < |redirects| => ReadPath(redirects[i].path))
  }

  function LocationBlocks(locs: seq<Location>): (r: seq<Pattern>)
    ensures |r| == |locs| && forall i :: 0 <= i < |locs| ==> r[i] == ReadPath(locs[i].path)
  {
    seq(|locs|, i requires 0 <= i < |locs| => ReadPath(locs[i].path))
  }

  /** The block of the first location. */
  function Start(added: AddedBlocks, redirects: seq<InternalRedirect>): nat { |added.early| + |redirects| + |added.late| }

  /** The blocks of a server, in the order they are written. */
  function Blocks(added: AddedBlocks, redirects: seq<InternalRedirect>, locs: seq<Location>): (r: seq<Pattern>)
    ensures |r| == Start(added, redirects) + |locs|
  {
    added.early + RedirectBlocks(redirects) + added.late + LocationBlocks(locs)
  }

  lemma EarlyBlock(added: AddedBlocks, redirects: seq<InternalRedirect>, locs: seq<Location>, i: nat)
    requires i < |added.early|
    ensures Blocks(added, redirects, locs)[i] == added.early[i]
  {
  }

  lemma RedirectBlock(added: AddedBlocks, redirects: seq<InternalRedirect>, locs: seq<Location>, i: nat)
    requires i < |redirects|
    ensures Blocks(added, redirects, locs)[|added.early| + i] == ReadPath(redirects[i].path)
  {
    hide ReadPath;
  }

  lemma LateBlock(added: AddedBlocks, redirects: seq<InternalRedirect>, locs: seq<Location>, i: nat)
    requires i < |added.late|
    ensures Blocks(added, redirects, locs)[|added.early| + |redirects| + i] == added.late[i]
  {
    hide ReadPath;
  }

  lemma LocationBlock(added: AddedBlocks, redirects: seq<InternalRedirect>, locs: seq<Location>, i: nat)
    requires i < |locs|
    ensures Blocks(added, redirects, locs)[Start(added, redirects) + i] == ReadPath(locs[i].path)
  {
    hide ReadPath;
  }

  function BlocksOf(c: Config): (r: seq<Pattern>)
    ensures |r| == FirstLocation(c) + |c.locations|
  {
    Blocks(c.added, c.redirects, c.locations)
  }

  function FirstRedirect(c: Config): nat { |c.added.early| }

  function FirstLocation(c: Config): nat { Start(c.added, c.redirects) }

  /** NGINX gives up on a request that is redirected more often than this. */
  const URI_CHANGES: nat := 11

  /** The location where a request for a URI ends: the chosen block, or what the chosen
      redirect leads to after choosing again. A block that was added serves it otherwise. */
  function Follow(c: Config, q: Request, uri: string, depth: nat, hops: nat): Option<nat>
    decreases hops
  {
    if hops == 0 then None
    else match Choose(BlocksOf(c), q, uri)
      case None => None
      case Some(b) =>
        if b >= FirstLocation(c) then Some(b - FirstLocation(c))
        else if b < FirstRedirect(c) || b >= FirstRedirect(c) + |c.redirects| then None
        else match Expand(EnvOf(c.program), q, c.redirects[b - FirstRedirect(c)].destination, depth)
          case None => None
          case Some(p) => Follow(c, q, p, depth, hops - 1)
  }

  /** No route or subroute, with or without matches and splits, has a path that would take
      this URI from a plain block, */
  predicate NoRouteTakes(jobs: seq<Job>, q: Request, uri: string) {
    forall j :: j in jobs ==> !Takes(ReadPath(GeneratePath(j.route.path)), q, uri)
  }

  predicate NoAddedTakes(added: AddedBlocks, q: Request, uri: string) {
    (forall p :: p in added.early ==> !Takes(p, q, uri)) && (forall p :: p in added.late ==> !Takes(p, q, uri))
  }

  /** and neither has a block that was added. */
  predicate NobodyTakes(jobs: seq<Job>, added: AddedBlocks, q: Request, uri: string) {
    NoRouteTakes(jobs, q, uri) && NoAddedTakes(added, q, uri)
  }

  lemma InternalPathIsPlain(st: Settings, spot: Spot)
    requires Readable(st.namer)
    ensures ReadPath(GeneratePath(st.namer.path(spot))) == PlainPath(st.namer.path(spot))
  {
    InternalPathUnchanged(st, spot);
    assert st.namer.path(spot)[0] == '/';
  }

  /** The block of a route: its redirect if it has matches or splits, else its location. */
  lemma RouteBlock(st: Settings, added: AddedBlocks, jobs: seq<Job>, n: nat) returns (b: nat)
    requires n < |jobs|
    ensures var pls := Lay(st, jobs, 0, 0);
            var redirects, items := RedirectsOf(st, pls), ItemsOf(st, pls);
            var start := Start(added, redirects);
            && b < start + |items|
            && (b >= start ==> items[b - start].at.External?)
            && Blocks(added, redirects, Locations(st, items, 0))[b] == ReadPath(GeneratePath(jobs[n].route.path))
  {
    hide Lay, ItemsOf, RedirectsOf, Locations, GeneratePath, ReadPath, Blocks;
    var pls := Lay(st, jobs, 0, 0);
    var redirects, items, r := RedirectsOf(st, pls), ItemsOf(st, pls), jobs[n].route;
    var locs := Locations(st, items, 0);
    if IsPlain(r) {
      ItemMember(st, pls, pls[n]);
      var x := Item(jobs[n].place, External(r.path), r.action);
      assert DefaultItems(st, jobs[n].place, r, pls[n].mi, pls[n].sc)[0] == x;
      assert x in PlacedItems(st, pls[n]);
      var a :| 0 <= a < |items| && items[a] == x;
      LocationPath(st, items, a);
      LocationBlock(added, redirects, locs, a);
      b := Start(added, redirects) + a;
    } else {
      RedirectMember(st, pls, pls[n]);
      var d := OnlyRedirect(st, r, pls[n].mi, pls[n].sc);
      hide RouteRedirect;
      var a :| 0 <= a < |redirects| && redirects[a] == d;
      RedirectBlock(added, redirects, locs, a);
      b := |added.early| + a;
    }
  }

  lemma OnlyRedirect(st: Settings, r: Route, mi: nat, sc: nat) returns (d: InternalRedirect)
    requires !IsPlain(r)
    ensures RouteRedirect(st, r, mi, sc) == [d] && d in RouteRedirect(st, r, mi, sc) && d.path == GeneratePath(r.path)
  {
    hide GeneratePath;
    d := RouteRedirect(st, r, mi, sc)[0];
  }

  lemma {:induction false} RedirectOrigin(st: Settings, pls: seq<Placed>, d: InternalRedirect) returns (pl: Placed)
    requires d in RedirectsOf(st, pls)
    ensures pl in pls && d.path == GeneratePath(pl.job.route.path)
  {
    hide GeneratePath;
    if d in RouteRedirect(st, pls[0].job.route, pls[0].mi, pls[0].sc) {
      pl := pls[0];
    } else {
      pl := RedirectOrigin(st, pls[1..], d);
    }
  }

  /** The location of an internal path keeps it to itself exactly when no route at all and no
      added block takes it. */
  lemma InternalPathExclusive(st: Settings, added: AddedBlocks, jobs: seq<Job>, q: Request, k: nat)
    requires Readable(st.namer) && Distinct(st.namer)
    requires var items := ItemsOf(st, Lay(st, jobs, 0, 0));
             k < |items| && items[k].at.Internal?
    ensures var pls := Lay(st, jobs, 0, 0);
            var redirects, items := RedirectsOf(st, pls), ItemsOf(st, pls);
            var path := st.namer.path(items[k].at.spot);
            NoOtherTakes(Blocks(added, redirects, Locations(st, items, 0)), q, path, Start(added, redirects) + k) <==>
            NobodyTakes(jobs, added, q, path)
  {
    hide *;
    var pls := Lay(st, jobs, 0, 0);
    var redirects, items := RedirectsOf(st, pls), ItemsOf(st, pls);
    var path, ps := st.namer.path(items[k].at.spot), Blocks(added, redirects, Locations(st, items, 0));
    if NoOtherTakes(ps, q, path, Start(added, redirects) + k) {
      RoutesDoNotTake(st, added, jobs, q, k);
    }
    if NobodyTakes(jobs, added, q, path) {
      BlocksDoNotTake(st, added, jobs, q, k);
    }
  }

  lemma RoutesDoNotTake(st: Settings, added: AddedBlocks, jobs: seq<Job>, q: Request, k: nat)
    requires var pls := Lay(st, jobs, 0, 0);
             var redirects, items := RedirectsOf(st, pls), ItemsOf(st, pls);
             && k < |items| && items[k].at.Internal?
             && NoOtherTakes(Blocks(added, redirects, Locations(st, items, 0)), q, st.namer.path(items[k].at.spot), Start(added, redirects) + k)
    ensures NobodyTakes(jobs, added, q, st.namer.path(ItemsOf(st, Lay(st, jobs, 0, 0))[k].at.spot))
  {
    hide Lay, ItemsOf, RedirectsOf, Locations, GeneratePath, ReadPath, Takes, Blocks;
    var pls := Lay(st, jobs, 0, 0);
    var redirects, items := RedirectsOf(st, pls), ItemsOf(st, pls);
    var path, ps := st.namer.path(items[k].at.spot), Blocks(added, redirects, Locations(st, items, 0));
    forall j | j in jobs
      ensures !Takes(ReadPath(GeneratePath(j.route.path)), q, path)
    {
      var n :| 0 <= n < |jobs| && jobs[n] == j;
      var b := RouteBlock(st, added, jobs, n);
      assert b != Start(added, redirects) + k && !Takes(ps[b], q, path);
    }
    forall p | p in added.early
      ensures !Takes(p, q, path)
    {
      var i :| 0 <= i < |added.early| && added.early[i] == p;
      EarlyBlock(added, redirects, Locations(st, items, 0), i);
    }
    forall p | p in added.late
      ensures !Takes(p, q, path)
    {
      var i :| 0 <= i < |added.late| && added.late[i] == p;
      LateBlock(added, redirects, Locations(st, items, 0), i);
    }
  }

  lemma BlocksDoNotTake(st: Settings, added: AddedBlocks, jobs: seq<Job>, q: Request, k: nat)
    requires Readable(st.namer) && Distinct(st.namer)
    requires var items := ItemsOf(st, Lay(st, jobs, 0, 0));
             k < |items| && items[k].at.Internal? && NobodyTakes(jobs, added, q, st.namer.path(items[k].at.spot))
    ensures var pls := Lay(st, jobs, 0, 0);
            var redirects, items := RedirectsOf(st, pls), ItemsOf(st, pls);
            NoOtherTakes(Blocks(added, redirects, Locations(st, items, 0)), q, st.namer.path(items[k].at.spot), Start(added, redirects) + k)
  {
    hide Lay, ItemsOf, RedirectsOf, Locations, GeneratePath, ReadPath, Takes, Blocks, Readable, Distinct;
    var pls := Lay(st, jobs, 0, 0);
    var redirects, items := RedirectsOf(st, pls), ItemsOf(st, pls);
    var locs := Locations(st, items, 0);
    var path, ps := st.namer.path(items[k].at.spot), Blocks(added, redirects, locs);
    forall b | 0 <= b < |ps| && b != Start(added, redirects) + k
      ensures !Takes(ps[b], q, path)
    {
      var e, m := |added.early|, |added.early| + |redirects|;
      if b < e {
        EarlyBlock(added, redirects, locs, b);
      } else if b < m {
        RedirectBlock(added, redirects, locs, b - e);
        var pl := RedirectOrigin(st, pls, redirects[b - e]);
        PlacedJob(st, jobs, pl);
      } else if b < m + |added.late| {
        LateBlock(added, redirects, locs, b - m);
      } else {
        var a := b - Start(added, redirects);
        OtherLocation(st, jobs, q, k, a);
        LocationBlock(added, redirects, locs, a);
      }
    }
  }

  lemma PlacedJob(st: Settings, jobs: seq<Job>, pl: Placed)
    requires pl in Lay(st, jobs, 0, 0)
    ensures pl.job in jobs
  {
    var i :| 0 <= i < |jobs| && Lay(st, jobs, 0, 0)[i] == pl;
  }

  lemma OtherLocation(st: Settings, jobs: seq<Job>, q: Request, k: nat, a: nat)
    requires Readable(st.namer) && Distinct(st.namer)
    requires var items := ItemsOf(st, Lay(st, jobs, 0, 0));
             k < |items| && a < |items| && a != k && items[k].at.Internal? && NoRouteTakes(jobs, q, st.namer.path(items[k].at.spot))
    ensures var items := ItemsOf(st, Lay(st, jobs, 0, 0));
            !Takes(ReadPath(Locations(st, items, 0)[a].path), q, st.namer.path(items[k].at.spot))
  {
    hide Lay, ItemsOf, Locations, GeneratePath, ReadPath, Readable, Distinct;
    var pls := Lay(st, jobs, 0, 0);
    var items := ItemsOf(st, pls);
    LocationPath(st, items, a);
    if items[a].at.External? {
      var pl := ItemOrigin(st, pls, items[a]);
      ExternalIsPlain(st, pl, items[a]);
      PlacedJob(st, jobs, pl);
    } else {
      AllSpotsUnique(st, jobs, 0, 0);
      InternalPathIsPlain(st, items[a].at.spot);
      DifferentSpots(items, k, a);
      if st.namer.path(items[a].at.spot) == st.namer.path(items[k].at.spot) {
        SamePathSameSpot(st.namer, items[a].at.spot, items[k].at.spot);
      }
    }
  }

  lemma DifferentSpots(items: seq<Item>, k: nat, a: nat)
    requires UniqueSpots(items) && k < |items| && a < |items| && a != k && items[k].at.Internal? && items[a].at.Internal?
    ensures items[a].at.spot != items[k].at.spot
  {
  }

  lemma {:induction false} RedirectMember(st: Settings, pls: seq<Placed>, pl: Placed)
    requires pl in pls
    ensures forall d :: d in RouteRedirect(st, pl.job.route, pl.mi, pl.sc) ==> d in RedirectsOf(st, pls)
  {
    hide RouteRedirect;
    if pl != pls[0] {
      RedirectMember(st, pls[1..], pl);
    }
  }

  lemma {:induction false} JobsAreValid(vs: VirtualServer)
    requires ValidVirtualServer(vs)
    ensures forall j :: j in WholePass(vs).jobs ==> ValidRoute(j.route)
  {
    RoutesPassValid(vs.prefix, EMPTY_PASS, vs.routes);
    HostsPassValid(RoutesPass(vs.prefix, EMPTY_PASS, vs.routes), vs.hosts);
  }

  lemma {:induction false} RoutesPassValid(prefix: string, s: Pass, rs: seq<SpecRoute>)
    requires forall j :: j in s.jobs ==> ValidRoute(j.route)
    requires forall r :: r in rs && r.OwnRoute? ==> ValidRoute(r.route)
    ensures forall j :: j in RoutesPass(prefix, s, rs).jobs ==> ValidRoute(j.route)
    decreases |rs|
  {
    if |rs| > 0 {
      hide ValidRoute;
      RoutesPassValid(prefix, RouteStep(prefix, s, rs[0]), rs[1..]);
    }
  }

  lemma {:induction false} SubroutesPassValid(h: VirtualServerRoute, s: Pass, rs: seq<Route>)
    requires forall j :: j in s.jobs ==> ValidRoute(j.route)
    requires forall r :: r in rs ==> ValidRoute(r)
    ensures forall j :: j in SubroutesPass(h, s, rs).jobs ==> ValidRoute(j.route)
    decreases |rs|
  {
    if |rs| > 0 {
      hide ValidRoute;
      SubroutesPassValid(h, SubrouteStep(h, s, rs[0]), rs[1..]);
    }
  }

  lemma {:induction false} HostsPassValid(s: Pass, hs: seq<VirtualServerRoute>)
    requires forall j :: j in s.jobs ==> ValidRoute(j.route)
    requires forall h :: h in hs ==> forall r :: r in h.subroutes ==> ValidRoute(r)
    ensures forall j :: j in HostsPass(s, hs).jobs ==> ValidRoute(j.route)
    decreases |hs|
  {
    if |hs| > 0 {
      hide ValidRoute;
      SubroutesPassValid(hs[0], s, hs[0].subroutes);
      HostsPassValid(SubroutesPass(hs[0], s, hs[0].subroutes), hs[1..]);
    }
  }

  lemma ValidActions(st: Settings, r: Route, sc: nat, q: Request)
    requires ValidRoute(r)
    ensures ValidAction(RequestAction(st, r, sc, q))
  {
    var k := FirstMatch(r.matches, 0, q);
    assert k < |r.matches| ==> ValidMatch(r.matches[k]);
  }

  /** The item that a request to a route ends at. */
  function Target(st: Settings, pl: Placed, q: Request): Item
    requires ValidRoute(pl.job.route)
  {
    var r := pl.job.route;
    Item(pl.job.place,
         if IsPlain(r) then External(r.path) else Internal(RequestSpot(st, r, pl.mi, pl.sc, q)),
         RequestAction(st, r, pl.sc, q))
  }

  lemma TargetIsGenerated(st: Settings, pls: seq<Placed>, pl: Placed, q: Request)
    requires pl in pls && ValidRoute(pl.job.route)
    ensures Target(st, pl, q) in ItemsOf(st, pls)
  {
    hide RequestSpot, RequestAction, RouteItems, ItemsOf;
    var r := pl.job.route;
    ItemMember(st, pls, pl);
    if IsPlain(r) {
      PlainItem(st, pl, q);
    } else {
      RequestItem(st, pl.job.place, r, pl.mi, pl.sc, q);
    }
  }

  lemma PlainItem(st: Settings, pl: Placed, q: Request)
    requires ValidRoute(pl.job.route) && IsPlain(pl.job.route)
    ensures Target(st, pl, q) in PlacedItems(st, pl)
  {
    assert DefaultItems(st, pl.job.place, pl.job.route, pl.mi, pl.sc)[0] == Target(st, pl, q);
  }

  /** What the redirect of a route with matches or splits expands to. */
  lemma RequestLeads(st: Settings, vs: VirtualServer, pl: Placed, q: Request, depth: nat)
    requires ValidVirtualServer(vs) && Readable(st.namer) && Distinct(st.namer) && MatchesAnchoredDigits(q)
    requires pl in Lay(st, WholePass(vs).jobs, 0, 0) && ValidRoute(pl.job.route)
    requires depth >= LongestChain(pl.job.route.matches) + 4
    ensures forall d :: d in RouteRedirect(st, pl.job.route, pl.mi, pl.sc) ==>
              Expand(EnvOf(ConfigOf(st, vs).program), q, d.destination, depth) ==
              Some(st.namer.path(RequestSpot(st, pl.job.route, pl.mi, pl.sc, q)))
  {
    hide WholePass, Lay, ProgramOf, LongestChain, ValidRoute, Readable, Distinct, MatchesAnchoredDigits, Expand, InForce;
    hide RedirectsOf, Locations, Returns, ItemsOf, TwoWayOf, GroupsOf, RequestSpot, RequestAction, RouteDefined, PolicyMaps, KeepsNative, RouteRedirect;
    var r, jobs := pl.job.route, WholePass(vs).jobs;
    var pls, c := Lay(st, jobs, 0, 0), ConfigOf(st, vs);
    PolicyMapsOfJobs(vs);
    DefinitionsInForce(st, vs.specMaps, jobs, vs.keyMaps);
    InForceKeepsNative(EnvOf(c.program), st, pls);
    RouteIsDefined(EnvOf(c.program), st, pls, pl);
    RouteCorrect(EnvOf(c.program), q, st, r, pl.mi, pl.sc, depth);
  }

  lemma RedirectVariable(st: Settings, r: Route, mi: nat, sc: nat, d: InternalRedirect) returns (k: Key)
    requires d in RouteRedirect(st, r, mi, sc)
    ensures d.destination == st.namer.variable(k)
  {
    if |r.matches| > 0 {
      k := Main(mi);
    } else if IsTwoWay(st, r.splits) {
      k := SplitMap(sc);
    } else {
      k := Splits(sc);
    }
  }

  /** The redirect of a route leads to the internal path that the route asks for if and only if
      the VirtualServer's safe name is a word: a name with a dot is accepted, but none of its
      routes with matches or splits works. */
  lemma LeadsExactly(safe: string, dynamic: bool, vs: VirtualServer, pl: Placed, q: Request, d: InternalRedirect, depth: nat)
    requires WordsAndDots(safe) && ValidVirtualServer(vs) && MatchesAnchoredDigits(q)
    requires var st := Settings(VirtualServerNamer(safe), dynamic);
             && pl in Lay(st, WholePass(vs).jobs, 0, 0) && ValidRoute(pl.job.route)
             && d in RouteRedirect(st, pl.job.route, pl.mi, pl.sc)
    requires depth >= LongestChain(pl.job.route.matches) + 4
    ensures var st := Settings(VirtualServerNamer(safe), dynamic);
            var path := st.namer.path(RequestSpot(st, pl.job.route, pl.mi, pl.sc, q));
            Expand(EnvOf(ConfigOf(st, vs).program), q, d.destination, depth) == Some(path) <==> AllWord(safe)
  {
    var st := Settings(VirtualServerNamer(safe), dynamic);
    if AllWord(safe) {
      NamesAreReadable(safe);
      NamesAreDistinct(safe);
      RequestLeads(st, vs, pl, q, depth);
    } else {
      var k := RedirectVariable(st, pl.job.route, pl.mi, pl.sc, d);
      hide ConfigOf, Expand, RequestSpot, EnvOf, RouteRedirect, VariableName, PathName;
      DottedNameLeadsNowhere(EnvOf(ConfigOf(st, vs).program), q, safe, k, RequestSpot(st, pl.job.route, pl.mi, pl.sc, q), depth);
    }
  }

  lemma InForceKeepsNative(e: Env, st: Settings, pls: seq<Placed>)
    requires InForce(e, st, pls)
    ensures KeepsNative(e)
  {
  }

  lemma PolicyMapsOfJobs(vs: VirtualServer)
    requires ValidVirtualServer(vs)
    ensures PolicyMaps(vs.specMaps) && PolicyMaps(vs.keyMaps)
    ensures forall j :: j in WholePass(vs).jobs ==> PolicyMaps(j.route.policyMaps)
  {
    JobsAreValid(vs);
  }

  lemma ExternalIsPlain(st: Settings, pl: Placed, x: Item)
    requires x in PlacedItems(st, pl) && x.at.External?
    ensures IsPlain(pl.job.route) && x.at.path == pl.job.route.path
  {
    var r := pl.job.route;
    AllMatchItemsSpots(st, pl.job.place, r.matches, 0, pl.mi, pl.sc);
    assert x in DefaultItems(st, pl.job.place, r, pl.mi, pl.sc);
  }

  // ---- every named reference resolves ----

  /** Exactly one named location has this name. */
  ghost predicate Resolves(locs: seq<NamedLocation>, name: string) {
    exists loc: NamedLocation :: loc.name == name && OnlyOne(locs, loc)
  }

  lemma PageNameStart(name: string, n: nat)
    requires IndexBelow(name, n)
    ensures |name| > 1 && name[1] == 'e'
  {
  }

  /** A page's location is alone among the return locations and the error pages. */
  lemma PageAlone(named: seq<NamedLocation>, pages: seq<NamedLocation>, loc: NamedLocation)
    requires OnlyOne(pages, loc) && Numbered(pages)
    requires forall i :: 0 <= i < |named| ==> named[i].name == ReturnName(i)
    ensures OnlyOne(named + pages, loc)
  {
    var all := named + pages;
    var k :| 0 <= k < |pages| && pages[k] == loc;
    PageNameStart(pages[k].name, |pages|);
    assert forall i :: 0 <= i < |named| ==> named[i].name[1] == 'r';
    assert all[|named| + k] == loc;
    hide ReturnName, Numbered;
    assert forall i :: 0 <= i < |all| ==> if i < |named| then all[i] == named[i] else all[i] == pages[i - |named|];
  }

  /** So is a return location. */
  lemma ReturnAlone(named: seq<NamedLocation>, pages: seq<NamedLocation>, k: nat)
    requires k < |named| && Numbered(pages)
    requires forall i :: 0 <= i < |named| ==> named[i].name == ReturnName(i)
    ensures OnlyOne(named + pages, named[k])
  {
    var all := named + pages;
    forall i | 0 <= i < |all| && i != k
      ensures all[i].name != named[k].name
    {
      if i < |named| {
        if ReturnName(i) == ReturnName(k) { ReturnNameInjective(i, k); }
      } else {
        PageNameStart(pages[i - |named|].name, |pages|);
      }
    }
    assert all[k] == named[k];
  }

  lemma ItemPlace(st: Settings, jobs: seq<Job>, k: nat) returns (j: Job)
    requires k < |ItemsOf(st, Lay(st, jobs, 0, 0))|
    ensures j in jobs && ItemsOf(st, Lay(st, jobs, 0, 0))[k].place == j.place
  {
    var pls := Lay(st, jobs, 0, 0);
    var items := ItemsOf(st, pls);
    assert items[k] in items;
    var pl := ItemOrigin(st, pls, items[k]);
    PlacedJob(st, jobs, pl);
    PlacedPlace(st, pl, items[k]);
    j := pl.job;
  }

  lemma {:induction false} MatchPlace(st: Settings, place: Place, ms: seq<Match>, i: nat, mi: nat, sc: nat)
    requires i <= |ms|
    ensures forall x :: x in AllMatchItems(st, place, ms, i, mi, sc) ==> x.place == place
    decreases |ms| - i
  {
    if i < |ms| {
      MatchPlace(st, place, ms, i + 1, mi, sc);
      hide GroupIndex;
    }
  }

  lemma PlacedPlace(st: Settings, pl: Placed, x: Item)
    requires x in PlacedItems(st, pl)
    ensures x.place == pl.job.place
  {
    MatchPlace(st, pl.job.place, pl.job.route.matches, 0, pl.mi, pl.sc);
    hide AllMatchItems, GroupIndex;
  }

  /** Which references a generated location holds: that of its return, those of its pages, or
      URLs. */
  lemma ItemReferences(st: Settings, item: Item, ret: nat, ref: ErrorPageRef)
    requires ValidAction(item.action) && ValidPages(item.place.pages.pages)
    requires ref in GenerateItem(st, item, ret).0.errorPages && StartsWith(ref.name, "@")
    ensures (IsReturn(item.action) && ref.name == ReturnName(ret))
         || exists i :: 0 <= i < |item.place.pages.pages| && item.place.pages.pages[i].redirect.None? && ref.name == PageLocation(item.place.pages, i).name
  {
    if item.action.redirect.None? && item.action.ret.None? {
      var d := item.place.pages;
      var i :| 0 <= i < |d.pages| && ErrorPages(d)[i] == ref;
      assert d.pages[i] in d.pages;
      assert PageLocation(d, i).name == ErrorPageName(d.index, i);
    }
  }

  lemma ItemResolves(st: Settings, items: seq<Item>, k: nat, pages: seq<NamedLocation>, ref: ErrorPageRef)
    requires k < |items| && ValidAction(items[k].action) && ValidPages(items[k].place.pages.pages)
    requires Numbered(pages) && PagesResolve(items[k].place.pages, pages)
    requires ref in Locations(st, items, 0)[k].errorPages && StartsWith(ref.name, "@")
    ensures Resolves(Returns(st, items, 0) + pages, ref.name)
  {
    hide Locations, Returns, GenerateItem, Numbered, ReturnName, OnlyOne, ValidAction, ValidPages, PageLocation;
    LocationsSpec(st, items, 0, k);
    ReturnNames(st, items, 0);
    var m, named := ReturnsBefore(items, k), Returns(st, items, 0);
    ItemReferences(st, items[k], m, ref);
    if IsReturn(items[k].action) && ref.name == ReturnName(m) {
      ReturnAlone(named, pages, m);
      assert named[m].name == ref.name;
    } else {
      var d := items[k].place.pages;
      var i :| 0 <= i < |d.pages| && d.pages[i].redirect.None? && ref.name == PageLocation(d, i).name;
      assert OnlyOne(pages, PageLocation(d, i));
      PageAlone(named, pages, PageLocation(d, i));
    }
  }

  /** Every reference by name in the whole generated configuration, to a return location or to
      an error page, own or inherited, is to exactly one named location. */
  lemma ReferencesResolve(st: Settings, vs: VirtualServer, k: nat, ref: ErrorPageRef)
    requires ValidVirtualServer(vs) && k < |ConfigOf(st, vs).locations|
    requires ref in ConfigOf(st, vs).locations[k].errorPages && StartsWith(ref.name, "@")
    ensures Resolves(ConfigOf(st, vs).named + ConfigOf(st, vs).pages, ref.name)
  {
    hide WholePass, Lay, ItemsOf, Locations, Returns, ProgramOf, RedirectsOf, TwoWayOf, GroupsOf, Numbered, ValidVirtualServer;
    hide PagesResolve, ValidPages, Resolves, ValidAction;
    var jobs := WholePass(vs).jobs;
    ErrorPagesResolve(vs);
    ConfigPagesValid(vs);
    ActionsValid(st, vs, k);
    var j := ItemPlace(st, jobs, k);
    ItemResolves(st, ItemsOf(st, Lay(st, jobs, 0, 0)), k, WholePass(vs).pages, ref);
  }

  lemma ConfigPagesValid(vs: VirtualServer)
    requires ValidVirtualServer(vs)
    ensures PagesValid(WholePass(vs))
  {
    RoutesPagesValid(vs.prefix, EMPTY_PASS, vs.routes);
    HostsPagesValid(RoutesPass(vs.prefix, EMPTY_PASS, vs.routes), vs.hosts);
  }

  lemma {:induction false} MatchActions(st: Settings, place: Place, ms: seq<Match>, i: nat, mi: nat, sc: nat)
    requires i <= |ms| && forall m :: m in ms ==> ValidMatch(m)
    ensures forall x :: x in AllMatchItems(st, place, ms, i, mi, sc) ==> ValidAction(x.action)
    decreases |ms| - i
  {
    hide MatchItems, ValidMatch, ValidAction, GroupIndex;
    if i < |ms| {
      MatchActions(st, place, ms, i + 1, mi, sc);
      OneMatchActions(st, place, ms, i, mi, sc);
    }
  }

  lemma OneMatchActions(st: Settings, place: Place, ms: seq<Match>, i: nat, mi: nat, sc: nat)
    requires i < |ms| && ValidMatch(ms[i])
    ensures forall x :: x in MatchItems(st, place, ms, i, mi, sc) ==> ValidAction(x.action)
  {
    hide GroupIndex, ValidAction;
  }

  lemma ActionsValid(st: Settings, vs: VirtualServer, k: nat)
    requires ValidVirtualServer(vs) && k < |ItemsOf(st, Lay(st, WholePass(vs).jobs, 0, 0))|
    ensures ValidAction(ItemsOf(st, Lay(st, WholePass(vs).jobs, 0, 0))[k].action)
  {
    var jobs := WholePass(vs).jobs;
    var pls := Lay(st, jobs, 0, 0);
    var items := ItemsOf(st, pls);
    JobsAreValid(vs);
    assert items[k] in items;
    var pl := ItemOrigin(st, pls, items[k]);
    PlacedJob(st, jobs, pl);
    hide WholePass, Lay, ItemsOf;
    PlacedAction(st, pl, items[k]);
  }

  lemma PlacedAction(st: Settings, pl: Placed, x: Item)
    requires ValidRoute(pl.job.route) && x in PlacedItems(st, pl)
    ensures ValidAction(x.action)
  {
    MatchActions(st, pl.job.place, pl.job.route.matches, 0, pl.mi, pl.sc);
    hide AllMatchItems, GroupIndex;
  }

  /** How many of the jobs before the `n`-th have a redirect. */
  function RedirectsBefore(jobs: seq<Job>, n: nat): nat
    requires n <= |jobs|
  {
    if n == 0 then 0 else RedirectsBefore(jobs, n - 1) + if IsPlain(jobs[n - 1].route) then 0 else 1
  }

  lemma {:induction false} RedirectsBeforeTail(jobs: seq<Job>, n: nat)
    requires 0 < n <= |jobs|
    ensures RedirectsBefore(jobs, n) == (if IsPlain(jobs[0].route) then 0 else 1) + RedirectsBefore(jobs[1..], n - 1)
  {
    if n > 1 {
      RedirectsBeforeTail(jobs, n - 1);
    }
  }

  lemma {:induction false} RedirectAt(st: Settings, pls: seq<Placed>, jobs: seq<Job>, n: nat)
    requires |pls| == |jobs| && (forall i :: 0 <= i < |jobs| ==> pls[i].job == jobs[i])
    requires n < |jobs| && !IsPlain(jobs[n].route)
    ensures RedirectsBefore(jobs, n) < |RedirectsOf(st, pls)|
    ensures RouteRedirect(st, jobs[n].route, pls[n].mi, pls[n].sc) == [RedirectsOf(st, pls)[RedirectsBefore(jobs, n)]]
    decreases |jobs|
  {
    var first := RouteRedirect(st, jobs[0].route, pls[0].mi, pls[0].sc);
    assert |first| == if IsPlain(jobs[0].route) then 0 else 1;
    hide RouteRedirect;
    if n > 0 {
      RedirectsBeforeTail(jobs, n);
      RedirectAt(st, pls[1..], jobs[1..], n - 1);
    }
  }

  /** The block that stands for route `n`, whose request ends at location `k`. */
  function EntryBlock(c: Config, jobs: seq<Job>, n: nat, k: nat): nat
    requires n < |jobs|
  {
    if IsPlain(jobs[n].route) then FirstLocation(c) + k else FirstRedirect(c) + RedirectsBefore(jobs, n)
  }

  /** A request that enters the block of a route ends at location `k`, and that location has
      its path to itself, if and only if no route and no added block takes the path; a route
      without matches and splits is served by its own location. */
  ghost predicate EndsAt(c: Config, jobs: seq<Job>, n: nat, q: Request, uri: string, depth: nat, k: nat)
    requires n < |jobs| && k < |c.locations|
  {
    var b := EntryBlock(c, jobs, n, k);
    var ps, end := BlocksOf(c), FirstLocation(c) + k;
    && b < |ps| && ps[b] == ReadPath(GeneratePath(jobs[n].route.path))
    && (Choose(ps, q, uri) == Some(b) ==>
          if IsPlain(jobs[n].route) then Follow(c, q, uri, depth, URI_CHANGES) == Some(k)
          else
            && ps[end] == PlainPath(c.locations[k].path)
            && (Arrives(c, q, uri, depth, k) && Unshared(ps, end) <==> NobodyTakes(jobs, c.added, q, c.locations[k].path)))
  }

  /** The redirect that the URI enters leads, after one more choice, to location `k`. */
  ghost predicate Arrives(c: Config, q: Request, uri: string, depth: nat, k: nat) {
    var b := Choose(BlocksOf(c), q, uri);
    && b.Some? && FirstRedirect(c) <= b.value < FirstRedirect(c) + |c.redirects|
    && var p := Expand(EnvOf(c.program), q, c.redirects[b.value - FirstRedirect(c)].destination, depth);
       p.Some? && Choose(BlocksOf(c), q, p.value) == Some(FirstLocation(c) + k)
  }

  /** Then the request is served there. */
  lemma ArrivesFollow(c: Config, q: Request, uri: string, depth: nat, k: nat)
    requires Arrives(c, q, uri, depth, k)
    ensures Follow(c, q, uri, depth, URI_CHANGES) == Some(k)
  {
    hide Choose, BlocksOf, Expand, EnvOf;
    var b := Choose(BlocksOf(c), q, uri).value;
    var p := Expand(EnvOf(c.program), q, c.redirects[b - FirstRedirect(c)].destination, depth).value;
    assert Follow(c, q, p, depth, URI_CHANGES - 1) == Some(k);
  }

  lemma PlainEnds(c: Config, q: Request, uri: string, depth: nat, k: nat)
    requires Choose(BlocksOf(c), q, uri) == Some(FirstLocation(c) + k)
    ensures Follow(c, q, uri, depth, URI_CHANGES) == Some(k)
  {
    hide Choose, BlocksOf, Expand, EnvOf;
  }

  /** The generated configuration does what the job of a route or subroute says. */
  lemma JobCorrect(safe: string, dynamic: bool, vs: VirtualServer, n: nat, q: Request, uri: string, depth: nat)
    returns (k: nat)
    requires AllWord(safe) && ValidVirtualServer(vs) && MatchesAnchoredDigits(q)
    requires n < |WholePass(vs).jobs|
    requires depth >= LongestChain(WholePass(vs).jobs[n].route.matches) + 4
    ensures var st := Settings(VirtualServerNamer(safe), dynamic);
            var c, jobs := ConfigOf(st, vs), WholePass(vs).jobs;
            var r, mi, sc := jobs[n].route, Lay(st, jobs, 0, 0)[n].mi, Lay(st, jobs, 0, 0)[n].sc;
            && ValidRoute(r)
            && k < |c.locations|
            && (!IsPlain(r) ==> c.locations[k].path == st.namer.path(RequestSpot(st, r, mi, sc, q)))
            && EndsAt(c, jobs, n, q, uri, depth, k)
            && forall status :: Outcome(c.named + c.pages, c.locations[k], status) ==
                 Some(Answered(jobs[n].place.prefix, jobs[n].place.pages.pages, RequestAction(st, r, sc, q), status))
  {
    hide WholePass, Lay, ProgramOf, LongestChain, ValidRoute, Readable, Distinct, MatchesAnchoredDigits, VirtualServerNamer;
    hide RedirectsOf, Locations, Returns, ItemsOf, TwoWayOf, GroupsOf, RequestSpot, RequestAction, Outcome, EndsAt, Answered;
    hide ValidVirtualServer, GeneratePath, ReadPath, ValidAction, Numbered, PagesResolve, ValidPages;
    var st := Settings(VirtualServerNamer(safe), dynamic);
    var c, jobs := ConfigOf(st, vs), WholePass(vs).jobs;
    var pls := Lay(st, jobs, 0, 0);
    var pl, items := pls[n], ItemsOf(st, pls);
    NamesAreReadable(safe);
    NamesAreDistinct(safe);
    JobsAreValid(vs);
    assert ValidRoute(jobs[n].route);
    TargetIsGenerated(st, pls, pl, q);
    k :| 0 <= k < |items| && items[k] == Target(st, pl, q);
    ValidActions(st, jobs[n].route, pl.sc, q);
    ErrorPagesResolve(vs);
    ConfigPagesValid(vs);
    assert jobs[n] in jobs && items[k].place == jobs[n].place;
    forall status
      ensures Outcome(c.named + c.pages, c.locations[k], status) ==
              Some(Answered(jobs[n].place.prefix, jobs[n].place.pages.pages, items[k].action, status))
    {
      LocationMeaning(st, items, k, c.pages, status);
    }
    LocationPath(st, items, k);
    if IsPlain(jobs[n].route) {
      PlainRouteEnds(st, vs, n, q, uri, depth, k);
    } else {
      InternalPathUnchanged(st, items[k].at.spot);
      RequestLeads(st, vs, pl, q, depth);
      RoutedEnds(st, vs, n, q, uri, depth, k);
    }
  }

  lemma PlainRouteEnds(st: Settings, vs: VirtualServer, n: nat, q: Request, uri: string, depth: nat, k: nat)
    requires n < |WholePass(vs).jobs| && IsPlain(WholePass(vs).jobs[n].route) && k < |ConfigOf(st, vs).locations|
    requires ConfigOf(st, vs).locations[k].path == GeneratePath(WholePass(vs).jobs[n].route.path)
    ensures EndsAt(ConfigOf(st, vs), WholePass(vs).jobs, n, q, uri, depth, k)
  {
    hide WholePass, ConfigOf, GeneratePath, ReadPath, Choose, Follow, NobodyTakes, Arrives, Unshared, Blocks;
    var c := ConfigOf(st, vs);
    LocationBlock(c.added, c.redirects, c.locations, k);
    if Choose(BlocksOf(c), q, uri) == Some(FirstLocation(c) + k) {
      PlainEnds(c, q, uri, depth, k);
    }
  }

  lemma RoutedEnds(st: Settings, vs: VirtualServer, n: nat, q: Request, uri: string, depth: nat, k: nat)
    requires Readable(st.namer) && Distinct(st.namer)
    requires n < |WholePass(vs).jobs| && !IsPlain(WholePass(vs).jobs[n].route)
    requires var pls := Lay(st, WholePass(vs).jobs, 0, 0);
             var c, items := ConfigOf(st, vs), ItemsOf(st, pls);
             && k < |items| && items[k].at.Internal?
             && c.locations[k].path == st.namer.path(items[k].at.spot)
             && (forall d :: d in RouteRedirect(st, pls[n].job.route, pls[n].mi, pls[n].sc) ==>
                   Expand(EnvOf(c.program), q, d.destination, depth) == Some(c.locations[k].path))
    ensures EndsAt(ConfigOf(st, vs), WholePass(vs).jobs, n, q, uri, depth, k)
  {
    hide WholePass, Lay, ProgramOf, RedirectsOf, Locations, Returns, ItemsOf, TwoWayOf, GroupsOf, Expand, EnvOf, EndsAt, Blocks;
    hide Readable, Distinct, GeneratePath, ReadPath, Choose, Takes, Unshared, RedirectsBefore, NobodyTakes, NoOtherTakes, IsPlain;
    var jobs, c := WholePass(vs).jobs, ConfigOf(st, vs);
    var pls := Lay(st, jobs, 0, 0);
    var items := ItemsOf(st, pls);
    RedirectAt(st, pls, jobs, n);
    var d := OnlyRedirect(st, jobs[n].route, pls[n].mi, pls[n].sc);
    hide RouteRedirect;
    assert d == [c.redirects[RedirectsBefore(jobs, n)]][0];
    InternalPathIsPlain(st, items[k].at.spot);
    InternalPathUnchanged(st, items[k].at.spot);
    InternalPathExclusive(st, c.added, jobs, q, k);
    EndsAtExactly(c, jobs, n, q, uri, depth, k);
  }

  lemma EndsAtExactly(c: Config, jobs: seq<Job>, n: nat, q: Request, uri: string, depth: nat, k: nat)
    requires n < |jobs| && !IsPlain(jobs[n].route) && k < |c.locations|
    requires var b, path := RedirectsBefore(jobs, n), c.locations[k].path;
             && b < |c.redirects| && c.redirects[b].path == GeneratePath(jobs[n].route.path)
             && Expand(EnvOf(c.program), q, c.redirects[b].destination, depth) == Some(path) && ReadPath(path) == PlainPath(path)
             && (NoOtherTakes(BlocksOf(c), q, path, FirstLocation(c) + k) <==> NobodyTakes(jobs, c.added, q, path))
    ensures EndsAt(c, jobs, n, q, uri, depth, k)
  {
    hide Expand, EnvOf, Blocks, GeneratePath, ReadPath, Choose, Unshared, RedirectsBefore, NobodyTakes, NoOtherTakes;
    RedirectBlock(c.added, c.redirects, c.locations, RedirectsBefore(jobs, n));
    LocationBlock(c.added, c.redirects, c.locations, k);
    PlainBlockChosen(BlocksOf(c), q, c.locations[k].path, FirstLocation(c) + k);
  }
}
