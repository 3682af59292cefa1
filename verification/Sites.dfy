/** Every route of a VirtualServer and every subroute of its VirtualServerRoutes, and what becomes of
    it in the generated configuration. */
module Sites {
  import opened Text
  import opened Nginx
  import opened LocationChoice
  import opened Routes
  import opened Compile
  import opened VariableNames
  import opened Layout
  import opened RouteMeaning
  import opened Definitions
  import opened VirtualServers

  /** A route of the VirtualServer that does not hand over, or a subroute, by its position. */
  datatype Site = OwnSite(route: nat) | SubSite(host: nat, subroute: nat)

  predicate IsSite(vs: VirtualServer, w: Site) {
    match w
    case OwnSite(i) => i < |vs.routes| && vs.routes[i].OwnRoute?
    case SubSite(h, j) => h < |vs.hosts| && j < |vs.hosts[h].subroutes|
  }

  function RouteAt(vs: VirtualServer, w: Site): Route
    requires IsSite(vs, w)
  {
    match w
    case OwnSite(i) => vs.routes[i].route
    case SubSite(h, j) => vs.hosts[h].subroutes[j]
  }

  /** The prefix of upstream names: that of the resource which holds the route. */
  function PrefixAt(vs: VirtualServer, w: Site): string
    requires IsSite(vs, w)
  {
    match w
    case OwnSite(_) => vs.prefix
    case SubSite(h, _) => vs.hosts[h].prefix
  }

  /** A route hands over to the VirtualServerRoute and has error pages for it. */
  predicate HandsPages(r: SpecRoute, key: string) {
    r.HandOver? && key in r.hosts && r.errorPages.Some? && |r.errorPages.value| > 0
  }

  /** The last such route among the first `n`, or -1. */
  function LastHandOver(rs: seq<SpecRoute>, n: nat, key: string): (i: int)
    requires n <= |rs|
    ensures -1 <= i < n && (i >= 0 ==> HandsPages(rs[i], key))
    ensures forall j :: i < j < n ==> !HandsPages(rs[j], key)
  {
    if n == 0 then -1 else if HandsPages(rs[n - 1], key) then n - 1 else LastHandOver(rs, n - 1, key)
  }

  /** The error pages in force: a route's own; a subroute without any has those of the last route
      that hands over to it with error pages. */
  function PagesAt(vs: VirtualServer, w: Site): seq<ErrorPage>
    requires IsSite(vs, w)
  {
    var own := RouteAt(vs, w).errorPages;
    if own.Some? then own.value
    else match w
      case OwnSite(_) => []
      case SubSite(h, _) =>
        var i := LastHandOver(vs.routes, |vs.routes|, vs.hosts[h].key);
        if i < 0 then [] else vs.routes[i].errorPages.value
  }

  // ---- positions ----

  function OwnBefore(rs: seq<SpecRoute>, n: nat): nat
    requires n <= |rs|
  {
    if n == 0 then 0 else OwnBefore(rs, n - 1) + if rs[n - 1].OwnRoute? then 1 else 0
  }

  function SubsBefore(hs: seq<VirtualServerRoute>, n: nat): nat
    requires n <= |hs|
  {
    if n == 0 then 0 else SubsBefore(hs, n - 1) + |hs[n - 1].subroutes|
  }

  /** Routes come first, then the subroutes of one VirtualServerRoute after the other. */
  function IndexAt(vs: VirtualServer, w: Site): nat
    requires IsSite(vs, w)
  {
    match w
    case OwnSite(i) => OwnBefore(vs.routes, i)
    case SubSite(h, j) => OwnBefore(vs.routes, |vs.routes|) + SubsBefore(vs.hosts, h) + j
  }

  // ---- the pass, one more at a time ----

  lemma {:induction false} RoutesPassSnoc(prefix: string, s: Pass, rs: seq<SpecRoute>, r: SpecRoute)
    ensures RoutesPass(prefix, s, rs + [r]) == RouteStep(prefix, RoutesPass(prefix, s, rs), r)
    decreases |rs|
  {
    hide RouteStep;
    if |rs| == 0 {
      assert rs + [r] == [r] && [r][1..] == [];
      assert RoutesPass(prefix, RouteStep(prefix, s, r), [r][1..]) == RouteStep(prefix, s, r);
    } else {
      assert (rs + [r])[0] == rs[0] && (rs + [r])[1..] == rs[1..] + [r];
      RoutesPassSnoc(prefix, RouteStep(prefix, s, rs[0]), rs[1..], r);
    }
  }

  lemma {:induction false} SubroutesPassSnoc(h: VirtualServerRoute, s: Pass, rs: seq<Route>, r: Route)
    ensures SubroutesPass(h, s, rs + [r]) == SubrouteStep(h, SubroutesPass(h, s, rs), r)
    decreases |rs|
  {
    hide SubrouteStep;
    if |rs| == 0 {
      assert rs + [r] == [r] && [r][1..] == [];
      assert SubroutesPass(h, SubrouteStep(h, s, r), [r][1..]) == SubrouteStep(h, s, r);
    } else {
      assert (rs + [r])[0] == rs[0] && (rs + [r])[1..] == rs[1..] + [r];
      SubroutesPassSnoc(h, SubrouteStep(h, s, rs[0]), rs[1..], r);
    }
  }

  lemma {:induction false} HostsPassSnoc(s: Pass, hs: seq<VirtualServerRoute>, h: VirtualServerRoute)
    ensures HostsPass(s, hs + [h]) == SubroutesPass(h, HostsPass(s, hs), h.subroutes)
    decreases |hs|
  {
    hide SubroutesPass;
    if |hs| == 0 {
      assert hs + [h] == [h] && [h][1..] == [];
      assert HostsPass(SubroutesPass(h, s, h.subroutes), [h][1..]) == SubroutesPass(h, s, h.subroutes);
    } else {
      assert (hs + [h])[0] == hs[0] && (hs + [h])[1..] == hs[1..] + [h];
      HostsPassSnoc(SubroutesPass(hs[0], s, hs[0].subroutes), hs[1..], h);
    }
  }

  predicate IsJob(j: Job, prefix: string, pages: seq<ErrorPage>, r: Route) {
    j.route == r && j.place.prefix == prefix && j.place.pages.pages == pages
  }

  // ---- routes ----

  ghost predicate OwnJobs(prefix: string, jobs: seq<Job>, rs: seq<SpecRoute>, n: nat)
    requires n <= |rs|
  {
    && |jobs| == OwnBefore(rs, n)
    && forall i :: 0 <= i < n && rs[i].OwnRoute? ==>
         OwnBefore(rs, i) < |jobs| && IsJob(jobs[OwnBefore(rs, i)], prefix, PagesOf(rs[i].route.errorPages), rs[i].route)
  }

  /** What is inherited is what the last hand-over left. */
  ghost predicate LastInherited(m: map<string, PageDetails>, rs: seq<SpecRoute>, n: nat, key: string)
    requires n <= |rs|
  {
    var i := LastHandOver(rs, n, key);
    && (key in m <==> i >= 0)
    && (i >= 0 ==> m[key].pages == rs[i].errorPages.value)
  }

  lemma OwnStep(prefix: string, s: Pass, rs: seq<SpecRoute>, n: nat)
    requires n < |rs| && OwnJobs(prefix, s.jobs, rs, n)
    ensures OwnJobs(prefix, RouteStep(prefix, s, rs[n]).jobs, rs, n + 1)
  {
    hide Inherit, PageLocations, IsJob;
    var t := RouteStep(prefix, s, rs[n]);
    if rs[n].OwnRoute? {
      OwnStepJob(prefix, s, rs[n]);
      assert t.jobs[|s.jobs|] == t.jobs[OwnBefore(rs, n)];
    }
  }

  lemma OwnStepJob(prefix: string, s: Pass, r: SpecRoute)
    requires r.OwnRoute?
    ensures var t := RouteStep(prefix, s, r).jobs;
            |t| == |s.jobs| + 1 && t[..|s.jobs|] == s.jobs && IsJob(t[|s.jobs|], prefix, PagesOf(r.route.errorPages), r.route)
  {
    hide PageLocations;
  }

  lemma InheritStep(prefix: string, s: Pass, rs: seq<SpecRoute>, n: nat, key: string)
    requires n < |rs| && LastInherited(s.inherited, rs, n, key)
    ensures LastInherited(RouteStep(prefix, s, rs[n]).inherited, rs, n + 1, key)
  {
    hide Inherit, PageLocations;
    if rs[n].HandOver? {
      InheritSpec(s.inherited, rs[n].hosts, PageDetails(PagesOf(rs[n].errorPages), |s.pages|));
    }
  }

  lemma {:induction false} OwnPass(prefix: string, rs: seq<SpecRoute>, n: nat)
    requires n <= |rs|
    ensures var s := RoutesPass(prefix, EMPTY_PASS, rs[..n]);
            OwnJobs(prefix, s.jobs, rs, n) && forall key :: LastInherited(s.inherited, rs, n, key)
  {
    if n > 0 {
      hide OwnJobs, LastInherited, RouteStep, RoutesPass;
      OwnPass(prefix, rs, n - 1);
      assert rs[..n] == rs[..n - 1] + [rs[n - 1]];
      RoutesPassSnoc(prefix, EMPTY_PASS, rs[..n - 1], rs[n - 1]);
      var s := RoutesPass(prefix, EMPTY_PASS, rs[..n - 1]);
      var m := RouteStep(prefix, s, rs[n - 1]).inherited;
      OwnStep(prefix, s, rs, n - 1);
      forall key
        ensures LastInherited(m, rs, n, key)
      {
        InheritStep(prefix, s, rs, n - 1, key);
      }
    }
  }

  // ---- subroutes ----

  /** The error pages of a subroute, given what its VirtualServerRoute inherits. */
  function SubPages(s: Pass, key: string, r: Route): seq<ErrorPage> {
    if r.errorPages.Some? then r.errorPages.value else if key in s.inherited then s.inherited[key].pages else []
  }

  ghost predicate SubJobs(h: VirtualServerRoute, s: Pass, t: Pass, n: nat)
    requires n <= |h.subroutes|
  {
    && t.inherited == s.inherited && |t.jobs| == |s.jobs| + n && t.jobs[..|s.jobs|] == s.jobs
    && forall j :: 0 <= j < n ==> IsJob(t.jobs[|s.jobs| + j], h.prefix, SubPages(s, h.key, h.subroutes[j]), h.subroutes[j])
  }

  lemma SubStepJob(h: VirtualServerRoute, s: Pass, r: Route)
    ensures var t := SubrouteStep(h, s, r);
            && t.inherited == s.inherited && |t.jobs| == |s.jobs| + 1 && t.jobs[..|s.jobs|] == s.jobs
            && IsJob(t.jobs[|s.jobs|], h.prefix, SubPages(s, h.key, r), r)
  {
    hide PageLocations;
  }

  lemma {:induction false} SubPass(h: VirtualServerRoute, s: Pass, n: nat)
    requires n <= |h.subroutes|
    ensures SubJobs(h, s, SubroutesPass(h, s, h.subroutes[..n]), n)
  {
    if n > 0 {
      hide SubroutesPass, SubrouteStep, IsJob, SubPages;
      var rs := h.subroutes;
      SubPass(h, s, n - 1);
      assert rs[..n] == rs[..n - 1] + [rs[n - 1]];
      SubroutesPassSnoc(h, s, rs[..n - 1], rs[n - 1]);
      var before, t := SubroutesPass(h, s, rs[..n - 1]), SubroutesPass(h, s, rs[..n]);
      SubStepJob(h, before, rs[n - 1]);
      SamePages(s, before, h.key, rs[n - 1]);
      assert t.jobs[..|s.jobs|] == t.jobs[..|before.jobs|][..|s.jobs|];
      assert forall i :: 0 <= i < |before.jobs| ==> t.jobs[i] == t.jobs[..|before.jobs|][i];
    } else {
      assert h.subroutes[..0] == [];
    }
  }

  // ---- VirtualServerRoutes ----

  ghost predicate HostJobs(hs: seq<VirtualServerRoute>, s: Pass, t: Pass, n: nat)
    requires n <= |hs|
  {
    && t.inherited == s.inherited && |t.jobs| == |s.jobs| + SubsBefore(hs, n) && t.jobs[..|s.jobs|] == s.jobs
    && forall h, j :: 0 <= h < n && 0 <= j < |hs[h].subroutes| ==> SubJob(hs, s, t, h, j)
  }

  /** The job of subroute `j` of host `h`. */
  ghost predicate SubJob(hs: seq<VirtualServerRoute>, s: Pass, t: Pass, h: nat, j: nat)
    requires h < |hs| && j < |hs[h].subroutes|
  {
    var k := |s.jobs| + SubsBefore(hs, h) + j;
    k < |t.jobs| && IsJob(t.jobs[k], hs[h].prefix, SubPages(s, hs[h].key, hs[h].subroutes[j]), hs[h].subroutes[j])
  }

  lemma HostStep(hs: seq<VirtualServerRoute>, s: Pass, t: Pass, n: nat)
    requires n < |hs| && HostJobs(hs, s, t, n)
    ensures HostJobs(hs, s, SubroutesPass(hs[n], t, hs[n].subroutes), n + 1)
  {
    hide SubroutesPass, IsJob, SubPages, SubsBefore;
    var u := SubroutesPass(hs[n], t, hs[n].subroutes);
    SubPass(hs[n], t, |hs[n].subroutes|);
    assert hs[n].subroutes[..|hs[n].subroutes|] == hs[n].subroutes;
    SubsBeforeNext(hs, n);
    assert u.jobs[..|s.jobs|] == u.jobs[..|t.jobs|][..|s.jobs|];
    forall h, j | 0 <= h < n + 1 && 0 <= j < |hs[h].subroutes|
      ensures SubJob(hs, s, u, h, j)
    {
      if h < n {
        var k := |s.jobs| + SubsBefore(hs, h) + j;
        assert SubJob(hs, s, t, h, j);
        assert u.jobs[k] == u.jobs[..|t.jobs|][k];
      } else {
        SamePages(s, t, hs[n].key, hs[n].subroutes[j]);
      }
    }
  }

  lemma SubsBeforeNext(hs: seq<VirtualServerRoute>, n: nat)
    requires n < |hs|
    ensures SubsBefore(hs, n + 1) == SubsBefore(hs, n) + |hs[n].subroutes|
  {
  }

  lemma SamePages(s: Pass, t: Pass, key: string, r: Route)
    requires s.inherited == t.inherited
    ensures SubPages(t, key, r) == SubPages(s, key, r)
  {
  }

  lemma {:induction false} HostPass(hs: seq<VirtualServerRoute>, s: Pass, n: nat)
    requires n <= |hs|
    ensures HostJobs(hs, s, HostsPass(s, hs[..n]), n)
  {
    if n > 0 {
      HostPass(hs, s, n - 1);
      assert hs[..n] == hs[..n - 1] + [hs[n - 1]];
      HostsPassSnoc(s, hs[..n - 1], hs[n - 1]);
      hide HostJobs, HostsPass, SubroutesPass;
      HostStep(hs, s, HostsPass(s, hs[..n - 1]), n - 1);
    } else {
      assert hs[..0] == [];
    }
  }

  // ---- all of them ----

  lemma WholeJobs(vs: VirtualServer) returns (s: Pass)
    ensures OwnJobs(vs.prefix, s.jobs, vs.routes, |vs.routes|) && HostJobs(vs.hosts, s, WholePass(vs), |vs.hosts|)
    ensures forall key :: LastInherited(s.inherited, vs.routes, |vs.routes|, key)
  {
    hide OwnJobs, HostJobs, LastInherited, RoutesPass, HostsPass;
    s := RoutesPass(vs.prefix, EMPTY_PASS, vs.routes);
    OwnPass(vs.prefix, vs.routes, |vs.routes|);
    HostPass(vs.hosts, s, |vs.hosts|);
    assert vs.routes[..|vs.routes|] == vs.routes && vs.hosts[..|vs.hosts|] == vs.hosts;
  }

  /** Every route and every subroute becomes one job, at its position, with the prefix of its
      resource and the error pages in force for it. */
  lemma JobAt(vs: VirtualServer, w: Site)
    requires IsSite(vs, w)
    ensures var jobs := WholePass(vs).jobs;
            IndexAt(vs, w) < |jobs| && IsJob(jobs[IndexAt(vs, w)], PrefixAt(vs, w), PagesAt(vs, w), RouteAt(vs, w))
  {
    var s := WholeJobs(vs);
    hide WholePass, OwnBefore, SubsBefore, LastHandOver;
    var t := WholePass(vs);
    match w
    case OwnSite(i) =>
      assert t.jobs[OwnBefore(vs.routes, i)] == t.jobs[..|s.jobs|][OwnBefore(vs.routes, i)];
    case SubSite(h, j) =>
      assert SubJob(vs.hosts, s, t, h, j);
      assert LastInherited(s.inherited, vs.routes, |vs.routes|, vs.hosts[h].key);
  }

  /** And there is no other job. */
  lemma SiteOf(vs: VirtualServer, n: nat) returns (w: Site)
    requires n < |WholePass(vs).jobs|
    ensures IsSite(vs, w) && IndexAt(vs, w) == n
  {
    var s := WholeJobs(vs);
    hide WholePass;
    if n < |s.jobs| {
      var i := OwnOf(vs.routes, |vs.routes|, n);
      w := OwnSite(i);
    } else {
      var h, j := SubOf(vs.hosts, |vs.hosts|, n - |s.jobs|);
      w := SubSite(h, j);
    }
  }

  lemma {:induction false} OwnOf(rs: seq<SpecRoute>, n: nat, k: nat) returns (i: nat)
    requires n <= |rs| && k < OwnBefore(rs, n)
    ensures i < n && rs[i].OwnRoute? && OwnBefore(rs, i) == k
    decreases n
  {
    if k < OwnBefore(rs, n - 1) {
      i := OwnOf(rs, n - 1, k);
    } else {
      i := n - 1;
    }
  }

  lemma {:induction false} SubOf(hs: seq<VirtualServerRoute>, n: nat, k: nat) returns (h: nat, j: nat)
    requires n <= |hs| && k < SubsBefore(hs, n)
    ensures h < n && j < |hs[h].subroutes| && SubsBefore(hs, h) + j == k
    decreases n
  {
    if k < SubsBefore(hs, n - 1) {
      h, j := SubOf(hs, n - 1, k);
    } else {
      h, j := n - 1, k - SubsBefore(hs, n - 1);
    }
  }

  // ---- the blocks of routes ----

  lemma ReadExact(u: string)
    ensures ReadPath("= " + u) == ExactPath(u)
  {
    var text := "= " + u;
    assert text[2..] == u && text[..2] == "= ";
  }

  lemma ReadPreferred(u: string)
    ensures ReadPath("^~ " + u) == PreferredPath(u)
  {
    var text := "^~ " + u;
    assert text[3..] == u && text[..3] == "^~ " && text[0] == '^';
  }

  lemma ReadRegex(re: string)
    ensures ReadPath("~ \"" + re + "\"") == RegexPath(re)
  {
    var text, quoted := "~ \"" + re + "\"", "\"" + re + "\"";
    assert text[2..] == quoted && text[..2] == "~ " && text[0] == '~' && text[1] == ' ';
    assert quoted[1..|quoted| - 1] == re;
  }

  lemma ReadAnyCase(re: string)
    ensures ReadPath("~* \"" + re + "\"") == RegexPath("*" + re)
  {
    var text, quoted := "~* \"" + re + "\"", "\"" + re + "\"";
    assert text[3..] == quoted && text[..3] == "~* " && text[0] == '~';
    assert quoted[1..|quoted| - 1] == re;
  }

  lemma ReadPlain(path: string)
    requires !StartsWith(path, "=") && !StartsWith(path, "^~") && !StartsWith(path, "~")
    ensures ReadPath(path) == PlainPath(path)
  {
    LongerStart(path, "=", "= ");
    LongerStart(path, "^~", "^~ ");
    LongerStart(path, "~", "~* ");
    LongerStart(path, "~", "~ ");
  }

  lemma LongerStart(s: string, p: string, longer: string)
    requires !StartsWith(s, p) && StartsWith(longer, p)
    ensures !StartsWith(s, longer)
  {
  }

  lemma OtherStart(s: string, p: string, other: string)
    requires StartsWith(s, p) && |p| > 0 && |other| > 0 && p[0] != other[0]
    ensures !StartsWith(s, other)
  {
    assert s[0] == p[0];
  }

  /** NGINX reads the generated path of a route as what the route's path means. */
  lemma PathIsRead(path: string)
    ensures ReadPath(GeneratePath(path)) == RoutePattern(path)
  {
    hide ReadPath, TrimLeft;
    if StartsWith(path, "^~") {
      OtherStart(path, "^~", "=");
      ReadPreferred(TrimLeft(path[2..]));
    } else if StartsWith(path, "~*") {
      OtherStart(path, "~*", "=");
      ReadAnyCase(TrimLeft(path[2..]));
    } else if StartsWith(path, "~") {
      OtherStart(path, "~", "=");
      ReadRegex(TrimLeft(path[1..]));
    } else if StartsWith(path, "=") {
      ReadExact(TrimLeft(path[1..]));
    } else {
      ReadPlain(path);
    }
  }

  /** No route, no subroute and no added block takes the path from a plain block. */
  ghost predicate NoneTakes(vs: VirtualServer, q: Request, path: string) {
    && (forall w :: IsSite(vs, w) ==> !Takes(RoutePattern(RouteAt(vs, w).path), q, path))
    && NoAddedTakes(vs.added, q, path)
  }

  lemma NoneTakesExactly(vs: VirtualServer, q: Request, path: string)
    ensures NobodyTakes(WholePass(vs).jobs, vs.added, q, path) <==> NoneTakes(vs, q, path)
  {
    hide WholePass, ReadPath, GeneratePath, RoutePattern, Takes, RouteAt, PrefixAt, PagesAt, IsSite, IndexAt, NoAddedTakes;
    var jobs := WholePass(vs).jobs;
    if NobodyTakes(jobs, vs.added, q, path) {
      forall w | IsSite(vs, w)
        ensures !Takes(RoutePattern(RouteAt(vs, w).path), q, path)
      {
        JobAt(vs, w);
        PathIsRead(RouteAt(vs, w).path);
        assert jobs[IndexAt(vs, w)] in jobs;
      }
    }
    if NoneTakes(vs, q, path) {
      forall j | j in jobs
        ensures !Takes(ReadPath(GeneratePath(j.route.path)), q, path)
      {
        var n :| 0 <= n < |jobs| && jobs[n] == j;
        var w := SiteOf(vs, n);
        JobAt(vs, w);
        PathIsRead(j.route.path);
      }
    }
  }

  /** Every block of the server is one that was added, that of a route or subroute, or that of an
      internal location. */
  lemma BlockOrigin(st: Settings, vs: VirtualServer, b: nat)
    requires Readable(st.namer) && b < |BlocksOf(ConfigOf(st, vs))|
    ensures var p := BlocksOf(ConfigOf(st, vs))[b];
            || p in vs.added.early || p in vs.added.late
            || (exists w :: IsSite(vs, w) && p == RoutePattern(RouteAt(vs, w).path))
            || (exists spot :: p == PlainPath(st.namer.path(spot)))
  {
    hide WholePass, Lay, ProgramOf, RedirectsOf, Locations, Returns, ItemsOf, TwoWayOf, GroupsOf, Blocks, GeneratePath, ReadPath, Readable;
    hide IsSite, RouteAt, RoutePattern;
    var jobs, c := WholePass(vs).jobs, ConfigOf(st, vs);
    var pls := Lay(st, jobs, 0, 0);
    var e, m := FirstRedirect(c), FirstRedirect(c) + |c.redirects|;
    if b < e {
      EarlyBlock(c.added, c.redirects, c.locations, b);
    } else if b < m {
      RedirectBlock(c.added, c.redirects, c.locations, b - e);
      var pl := RedirectOrigin(st, pls, c.redirects[b - e]);
      PlacedJob(st, jobs, pl);
      var w := SiteOfJob(vs, pl.job);
    } else if b < FirstLocation(c) {
      LateBlock(c.added, c.redirects, c.locations, b - m);
    } else {
      var items, a := ItemsOf(st, pls), b - FirstLocation(c);
      LocationBlock(c.added, c.redirects, c.locations, a);
      LocationPath(st, items, a);
      if items[a].at.External? {
        assert items[a] in items;
        var pl := ItemOrigin(st, pls, items[a]);
        ExternalIsPlain(st, pl, items[a]);
        PlacedJob(st, jobs, pl);
        var w := SiteOfJob(vs, pl.job);
      } else {
        InternalPathIsPlain(st, items[a].at.spot);
      }
    }
  }

  lemma SiteOfJob(vs: VirtualServer, j: Job) returns (w: Site)
    requires j in WholePass(vs).jobs
    ensures IsSite(vs, w) && ReadPath(GeneratePath(j.route.path)) == RoutePattern(RouteAt(vs, w).path)
  {
    hide WholePass, ReadPath, GeneratePath, RoutePattern;
    var n :| 0 <= n < |WholePass(vs).jobs| && WholePass(vs).jobs[n] == j;
    w := SiteOf(vs, n);
    JobAt(vs, w);
    PathIsRead(j.route.path);
  }

  // ---- the whole configuration ----

  /** Block `b` is that of the route or subroute. A request that enters it ends at location `k`, and
      that location has its path to itself, if and only if no route, no subroute and no added
      block takes the path; a route without matches and splits is served by its own location. */
  ghost predicate ServedAt(c: Config, vs: VirtualServer, w: Site, q: Request, uri: string, depth: nat, b: nat, k: nat)
    requires IsSite(vs, w) && k < |c.locations| && b < |BlocksOf(c)|
  {
    var ps, end, path := BlocksOf(c), FirstLocation(c) + k, c.locations[k].path;
    && ps[b] == RoutePattern(RouteAt(vs, w).path)
    && (Choose(ps, q, uri) == Some(b) ==>
          if IsPlain(RouteAt(vs, w)) then Follow(c, q, uri, depth, URI_CHANGES) == Some(k)
          else
            && ps[end] == PlainPath(path)
            && (Arrives(c, q, uri, depth, k) && Unshared(ps, end) <==> NoneTakes(vs, q, path)))
  }

  /** The whole configuration of a VirtualServer does what each of its routes, and each subroute of
      its VirtualServerRoutes, asks for, with the error pages in force for it and whatever the
      upstream answers. */
  lemma VirtualServerCorrect(safe: string, dynamic: bool, vs: VirtualServer, w: Site, q: Request, uri: string, depth: nat)
    returns (b: nat, k: nat)
    requires AllWord(safe) && ValidVirtualServer(vs) && MatchesAnchoredDigits(q)
    requires IsSite(vs, w) && depth >= LongestChain(RouteAt(vs, w).matches) + 4
    ensures var st := Settings(VirtualServerNamer(safe), dynamic);
            var c, n, r := ConfigOf(st, vs), IndexAt(vs, w), RouteAt(vs, w);
            && n < |WholePass(vs).jobs| && ValidRoute(r)
            && k < |c.locations| && b < |BlocksOf(c)| && ServedAt(c, vs, w, q, uri, depth, b, k)
            && forall status :: Outcome(c.named + c.pages, c.locations[k], status) ==
                 Some(Answered(PrefixAt(vs, w), PagesAt(vs, w), RequestAction(st, r, Lay(st, WholePass(vs).jobs, 0, 0)[n].sc, q), status))
  {
    hide WholePass, Lay, LongestChain, ValidRoute, MatchesAnchoredDigits, VirtualServerNamer, ConfigOf, RequestAction, Outcome, EndsAt, Answered, ServedAt;
    hide ValidVirtualServer, IsSite, RouteAt, PagesAt, PrefixAt, IndexAt, EntryBlock, AllWord, BlocksOf, IsPlain;
    var st := Settings(VirtualServerNamer(safe), dynamic);
    var c, n := ConfigOf(st, vs), IndexAt(vs, w);
    JobAt(vs, w);
    k := JobCorrect(safe, dynamic, vs, n, q, uri, depth);
    b := EntryBlock(c, WholePass(vs).jobs, n, k);
    ConfigAdded(st, vs);
    EndsAtSite(c, vs, w, q, uri, depth, k);
  }

  lemma ConfigAdded(st: Settings, vs: VirtualServer)
    ensures ConfigOf(st, vs).added == vs.added
  {
  }

  lemma EndsAtSite(c: Config, vs: VirtualServer, w: Site, q: Request, uri: string, depth: nat, k: nat)
    requires IsSite(vs, w) && k < |c.locations| && c.added == vs.added
    requires var jobs, n := WholePass(vs).jobs, IndexAt(vs, w);
             n < |jobs| && jobs[n].route == RouteAt(vs, w) && EndsAt(c, jobs, n, q, uri, depth, k)
    ensures var b := EntryBlock(c, WholePass(vs).jobs, IndexAt(vs, w), k);
            b < |BlocksOf(c)| && ServedAt(c, vs, w, q, uri, depth, b, k)
  {
    hide WholePass, IsSite, RouteAt, IndexAt, EntryBlock, BlocksOf, IsPlain, Choose, Follow, Arrives, Unshared, NobodyTakes, NoneTakes;
    hide ReadPath, GeneratePath, RoutePattern;
    PathIsRead(RouteAt(vs, w).path);
    NoneTakesExactly(vs, q, c.locations[k].path);
  }
}
