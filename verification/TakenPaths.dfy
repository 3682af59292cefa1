/** How an internal location loses its path: to another route, or to a block that a policy adds. */
module TakenPaths {
  import opened Text
  import opened Nginx
  import opened LocationChoice
  import opened Routes
  import opened Compile
  import opened VariableNames
  import opened Layout
  import opened RouteMeaning
  import opened Definitions
  import opened VirtualServers

  function PassTo(upstream: string): Action { Action(upstream, "", None, None) }

  /** Where the first route of the VirtualServers below sends its requests. */
  const FIRST_SPLIT := "/internal_location_splits_0_split_0"

  /** The path of that route. */
  const ENTRY := "/a"

  const PREFIX := "vs_ns_cafe"

  const NO_BLOCKS := AddedBlocks([], [])

  /** A route with splits, all of whose requests go to the first, beside another route. */
  function Beside(other: Route, added: AddedBlocks): VirtualServer {
    VirtualServer(PREFIX, [OwnRoute(SplitRoute()), OwnRoute(other)], [], [], [], added)
  }

  function SplitRoute(): Route { Route(ENTRY, [], [Split(100, PassTo("x")), Split(0, PassTo("y"))], PassTo("x"), None, []) }

  function StaticSettings(safe: string): Settings { Settings(VirtualServerNamer(safe), false) }

  function BesideConfig(safe: string, other: Route, added: AddedBlocks): Config { ConfigOf(StaticSettings(safe), Beside(other, added)) }

  // ---- what is generated ----

  lemma BesideJobs(other: Route, added: AddedBlocks)
    requires ValidRoute(other)
    ensures var vs := Beside(other, added);
            var jobs := WholePass(vs).jobs;
            && |jobs| == 2 && jobs[0].route == SplitRoute() && jobs[1].route == other && ValidVirtualServer(vs)
            && jobs[0].place.prefix == jobs[1].place.prefix == vs.prefix && jobs[1].place.pages.pages == PagesOf(other.errorPages)
  {
    var vs := Beside(other, added);
    var s1 := RouteStep(vs.prefix, EMPTY_PASS, vs.routes[0]);
    var s2 := RouteStep(vs.prefix, s1, vs.routes[1]);
    assert vs.routes[1..] == [vs.routes[1]] && vs.routes[1..][1..] == [];
    assert RoutesPass(vs.prefix, s2, []) == s2;
    assert RoutesPass(vs.prefix, s1, vs.routes[1..]) == s2;
    assert RoutesPass(vs.prefix, EMPTY_PASS, vs.routes) == s2;
    assert HostsPass(s2, []) == s2;
    assert Weights(SplitRoute().splits) == [100, 0];
    SumOfTwo(100, 0);
  }

  /** Two jobs, laid out. */
  ghost predicate TwoJobs(st: Settings, jobs: seq<Job>, pls: seq<Placed>, other: Route) {
    && |jobs| == 2 && jobs[0].route == SplitRoute() && jobs[1].route == other
    && pls == Lay(st, jobs, 0, 0) && |pls| == 2 && pls[0] == Placed(jobs[0], 0, 0) && pls[1].job == jobs[1]
  }

  lemma BesideLayout(st: Settings, other: Route, added: AddedBlocks)
    requires ValidRoute(other)
    ensures var jobs := WholePass(Beside(other, added)).jobs;
            TwoJobs(st, jobs, Lay(st, jobs, 0, 0), other) && LongestChain(SplitRoute().matches) == 0 && !IsPlain(SplitRoute())
  {
    BesideJobs(other, added);
  }

  /** The first redirect is that of the first route; any further one is the other route's. */
  lemma BesideRedirects(st: Settings, jobs: seq<Job>, pls: seq<Placed>, other: Route)
    requires TwoJobs(st, jobs, pls, other)
    ensures var redirects := RedirectsOf(st, pls);
            && |redirects| == (if IsPlain(other) then 1 else 2)
            && redirects[0].path == ENTRY && [redirects[0]] == RouteRedirect(st, SplitRoute(), 0, 0)
            && forall i :: 0 < i < |redirects| ==> redirects[i].path == GeneratePath(other.path)
  {
    hide GeneratePath;
    var first, second := RouteRedirect(st, SplitRoute(), 0, 0), RouteRedirect(st, other, pls[1].mi, pls[1].sc);
    assert |first| == 1 && first[0].path == GeneratePath(ENTRY);
    PlainPathUnchanged(ENTRY);
    assert pls[1..] == [pls[1]] && pls[1..][1..] == [];
    hide RouteRedirect;
    assert RedirectsOf(st, [pls[1]]) == second + RedirectsOf(st, []);
    assert RedirectsOf(st, pls) == first + second;
    assert |second| == (if IsPlain(other) then 0 else 1) && forall d :: d in second ==> d.path == GeneratePath(other.path) by {
      OneRedirect(st, other, pls[1].mi, pls[1].sc);
    }
  }

  lemma OneRedirect(st: Settings, r: Route, mi: nat, sc: nat)
    ensures |RouteRedirect(st, r, mi, sc)| == (if IsPlain(r) then 0 else 1)
    ensures forall d :: d in RouteRedirect(st, r, mi, sc) ==> d.path == GeneratePath(r.path)
  {
    hide GeneratePath, FIRST_SPLIT, ENTRY, PREFIX;
  }

  /** Only the other route can have a location at a path of its own, and then it has one. */
  lemma BesideItems(st: Settings, jobs: seq<Job>, pls: seq<Placed>, other: Route, a: nat)
    requires TwoJobs(st, jobs, pls, other) && a < |ItemsOf(st, pls)|
    ensures var items := ItemsOf(st, pls);
            items[a].at.External? ==> IsPlain(other) && items[a].at.path == other.path && a == |items| - 1
  {
    var items, first, second := ItemsOf(st, pls), PlacedItems(st, pls[0]), PlacedItems(st, pls[1]);
    assert pls[1..] == [pls[1]] && pls[1..][1..] == [];
    assert ItemsOf(st, [pls[1]]) == second + ItemsOf(st, []);
    assert items == first + second;
    if items[a].at.External? {
      if a < |first| {
        ExternalIsPlain(st, pls[0], items[a]);
      } else {
        assert items[a] in second;
        ExternalIsPlain(st, pls[1], items[a]);
        PlainHasOne(st, pls[1]);
      }
    }
  }

  lemma PlainHasOne(st: Settings, pl: Placed)
    requires IsPlain(pl.job.route)
    ensures |PlacedItems(st, pl)| == 1
  {
  }

  // ---- a request enters the first route ----

  lemma EntryIsPlain()
    ensures ReadPath(ENTRY) == PlainPath(ENTRY)
  {
    SlashPath(ENTRY);
    hide ReadPath;
  }

  lemma InternalIsNotEntry(st: Settings, spot: Spot)
    requires Readable(st.namer)
    ensures ReadPath(GeneratePath(st.namer.path(spot))) == PlainPath(st.namer.path(spot)) && st.namer.path(spot) != ENTRY
  {
    InternalPathIsPlain(st, spot);
    assert |"/internal_location_"| > 2 && |st.namer.path(spot)| > 2;
  }

  /** What every block but the first redirect is: added, the other route's, or an internal
      location. */
  lemma BesideBlock(st: Settings, other: Route, added: AddedBlocks, b: nat)
    requires ValidRoute(other) && Readable(st.namer)
    requires var c := ConfigOf(st, Beside(other, added)); b < |BlocksOf(c)| && b != FirstRedirect(c)
    ensures var c := ConfigOf(st, Beside(other, added));
            var ps, items := BlocksOf(c), ItemsOf(st, Lay(st, WholePass(Beside(other, added)).jobs, 0, 0));
            && |items| == |c.locations|
            && if b < FirstRedirect(c) || FirstRedirect(c) + |c.redirects| <= b < FirstLocation(c) then ps[b] in added.early || ps[b] in added.late
               else if b < FirstLocation(c) then ps[b] == ReadPath(GeneratePath(other.path)) && !IsPlain(other)
               else
                 var at := items[b - FirstLocation(c)].at;
                 if at.External? then ps[b] == ReadPath(GeneratePath(other.path)) && IsPlain(other) && b == |ps| - 1
                 else ps[b] == PlainPath(st.namer.path(at.spot)) && st.namer.path(at.spot) != ENTRY
  {
    hide GeneratePath, ReadPath, Blocks, ItemsOf, RedirectsOf, Lay, Locations, ProgramOf, Readable, TwoWayOf, GroupsOf, Returns, ValidRoute, FIRST_SPLIT, ENTRY, PREFIX;
    var vs := Beside(other, added);
    var c, jobs := ConfigOf(st, vs), WholePass(vs).jobs;
    BesideLayout(st, other, added);
    hide Beside, WholePass;
    var pls := Lay(st, jobs, 0, 0);
    BesideRedirects(st, jobs, pls, other);
    var ps, items := BlocksOf(c), ItemsOf(st, pls);
    var e, m := FirstRedirect(c), FirstRedirect(c) + |c.redirects|;
    if b < e {
      EarlyBlock(c.added, c.redirects, c.locations, b);
    } else if b < m {
      RedirectBlock(c.added, c.redirects, c.locations, b - e);
    } else if b < FirstLocation(c) {
      LateBlock(c.added, c.redirects, c.locations, b - m);
    } else {
      var a := b - FirstLocation(c);
      LocationBlock(c.added, c.redirects, c.locations, a);
      LocationPath(st, items, a);
      BesideItems(st, jobs, pls, other, a);
      if items[a].at.Internal? {
        InternalIsNotEntry(st, items[a].at.spot);
      }
    }
  }

  /** A request for the first route's path enters it unless the other route or an added block
      takes that path. */
  lemma FirstIsEntered(st: Settings, other: Route, added: AddedBlocks, q: Request)
    requires ValidRoute(other) && Readable(st.namer)
    requires !Takes(ReadPath(GeneratePath(other.path)), q, ENTRY) && NoAddedTakes(added, q, ENTRY)
    ensures var c := ConfigOf(st, Beside(other, added));
            && |c.redirects| > 0 && BlocksOf(c)[FirstRedirect(c)] == PlainPath(ENTRY)
            && Choose(BlocksOf(c), q, ENTRY) == Some(FirstRedirect(c))
  {
    var c, jobs := ConfigOf(st, Beside(other, added)), WholePass(Beside(other, added)).jobs;
    hide GeneratePath, ReadPath, Blocks, ConfigOf, WholePass, ValidRoute, Readable, Choose, ItemsOf, Lay, FIRST_SPLIT, ENTRY, PREFIX;
    FirstRedirectPath(st, other, added);
    var ps, e := BlocksOf(c), FirstRedirect(c);
    forall b | 0 <= b < |ps| && b != e
      ensures !Takes(ps[b], q, ENTRY)
    {
      BesideBlock(st, other, added, b);
    }
    PlainBlockChosen(ps, q, ENTRY, e);
  }

  lemma FirstRedirectPath(st: Settings, other: Route, added: AddedBlocks)
    requires ValidRoute(other)
    ensures var c := ConfigOf(st, Beside(other, added));
            && |c.redirects| == (if IsPlain(other) then 1 else 2) && BlocksOf(c)[FirstRedirect(c)] == PlainPath(ENTRY)
            && c.redirects[0].path == ENTRY && [c.redirects[0]] == RouteRedirect(st, SplitRoute(), 0, 0) && c.added == added
  {
    hide ReadPath, ItemsOf, RedirectsOf, Lay, Locations, ProgramOf, TwoWayOf, GroupsOf, Returns, ValidRoute, FIRST_SPLIT, ENTRY, PREFIX;
    var vs := Beside(other, added);
    var c, jobs := ConfigOf(st, vs), WholePass(vs).jobs;
    BesideLayout(st, other, added);
    hide WholePass, RouteRedirect, GeneratePath;
    BesideRedirects(st, jobs, Lay(st, jobs, 0, 0), other);
    EntryIsPlain();
    RedirectBlock(c.added, c.redirects, c.locations, 0);
  }

  // ---- and does not end where it should ----

  /** Location `k` is the one at the internal path, a request for the first route's path enters
      that route, and it does not end at `k`, or NGINX refuses `k` as a second block. */
  ghost predicate Lost(c: Config, q: Request, k: nat) {
    var ps, end := BlocksOf(c), FirstLocation(c) + k;
    && k < |c.locations| && ps[end] == PlainPath(FIRST_SPLIT)
    && Choose(ps, q, ENTRY) == Some(FirstRedirect(c))
    && !(Arrives(c, q, ENTRY, 4, k) && Unshared(ps, end))
  }

  lemma FirstSplitPath(safe: string)
    ensures VirtualServerNamer(safe).path(SplitSpot(0, 0)) == FIRST_SPLIT
  {
    var t := ["splits", "0", "split", "0"];
    assert SpotTokens(SplitSpot(0, 0)) == t;
    assert t[1..] == ["0", "split", "0"] && t[1..][1..] == ["split", "0"] && t[1..][1..][1..] == ["0"];
    assert Join(t) == "splits" + "_" + ("0" + "_" + ("split" + "_" + "0"));
  }

  lemma SlashPath(u: string)
    requires |u| > 0 && u[0] == '/'
    ensures ReadPath(u) == PlainPath(u) && GeneratePath(u) == u && ReadPath(GeneratePath("=" + u)) == ExactPath(u)
  {
    var path, text := "=" + u, "= " + u;
    assert path[0] == '=' && path[1..] == u && TrimLeft(u) == u;
    assert GeneratePath(path) == text;
    assert text[..2] == "= " && text[2..] == u;
  }

  lemma FirstSplitIsPlain()
    ensures ReadPath(FIRST_SPLIT) == PlainPath(FIRST_SPLIT) && GeneratePath(FIRST_SPLIT) == FIRST_SPLIT && FIRST_SPLIT != ENTRY
  {
    assert FIRST_SPLIT[0] == '/' && FIRST_SPLIT[1] == 'i';
    SlashPath(FIRST_SPLIT);
    hide ReadPath, GeneratePath;
  }

  lemma FirstSplitAsked(st: Settings, q: Request)
    requires !st.dynamic && ValidRoute(SplitRoute())
    ensures RequestSpot(st, SplitRoute(), 0, 0, q) == SplitSpot(0, 0)
  {
    var g := RequestGroup(st, SplitRoute(), 0, q);
    assert Weights(g.splits) == [100, 0];
  }

  /** Where the first route's requests should end, and what happens to them. */
  lemma FirstRouteEnds(safe: string, other: Route, added: AddedBlocks, q: Request) returns (k: nat)
    requires AllWord(safe) && MatchesAnchoredDigits(q) && ValidRoute(other)
    ensures var c, jobs := BesideConfig(safe, other, added), WholePass(Beside(other, added)).jobs;
            && k < |c.locations| && c.locations[k].path == FIRST_SPLIT && |jobs| == 2 && jobs[0].route == SplitRoute() && jobs[1].route == other
            && EndsAt(c, jobs, 0, q, ENTRY, 4, k)
  {
    hide WholePass, ConfigOf, Lay, Outcome, LongestChain, MatchesAnchoredDigits, ValidRoute, RequestAction, EndsAt, RequestSpot, FIRST_SPLIT, ENTRY, PREFIX;
    hide VirtualServerNamer, Beside, GeneratePath, IsPlain, ValidVirtualServer, Answered, AllWord, ReadPath, SplitRoute;
    var vs, st := Beside(other, added), StaticSettings(safe);
    BesideJobs(other, added);
    BesideLayout(st, other, added);
    FirstSplitPath(safe);
    k := JobCorrect(safe, false, vs, 0, q, ENTRY, 4);
    FirstSplitAsked(st, q);
  }

  /** Whenever the other route or an added block takes the internal path, and leaves the first
      route its own, the first route loses its internal location. */
  lemma InternalPathCanBeTaken(safe: string, other: Route, added: AddedBlocks, q: Request) returns (k: nat)
    requires AllWord(safe) && MatchesAnchoredDigits(q) && ValidRoute(other)
    requires !Takes(ReadPath(GeneratePath(other.path)), q, ENTRY) && NoAddedTakes(added, q, ENTRY)
    requires Takes(ReadPath(GeneratePath(other.path)), q, FIRST_SPLIT) || !NoAddedTakes(added, q, FIRST_SPLIT)
    ensures ValidVirtualServer(Beside(other, added)) && Lost(BesideConfig(safe, other, added), q, k)
  {
    hide WholePass, ConfigOf, MatchesAnchoredDigits, ValidRoute, EndsAt, AllWord, ReadPath, GeneratePath, Takes, Lost, ValidVirtualServer, VirtualServerNamer, FIRST_SPLIT, ENTRY, PREFIX;
    var c, jobs := BesideConfig(safe, other, added), WholePass(Beside(other, added)).jobs;
    NamesAreReadable(safe);
    BesideJobs(other, added);
    FirstIsEntered(StaticSettings(safe), other, added, q);
    FirstRedirectPath(StaticSettings(safe), other, added);
    k := FirstRouteEnds(safe, other, added, q);
    assert jobs[1] in jobs;
    TakenIsLost(c, jobs, q, k);
  }

  lemma TakenIsLost(c: Config, jobs: seq<Job>, q: Request, k: nat)
    requires |jobs| > 0 && jobs[0].route == SplitRoute() && k < |c.locations| && c.locations[k].path == FIRST_SPLIT
    requires EndsAt(c, jobs, 0, q, ENTRY, 4, k) && !NobodyTakes(jobs, c.added, q, FIRST_SPLIT)
    requires Choose(BlocksOf(c), q, ENTRY) == Some(FirstRedirect(c))
    ensures Lost(c, q, k)
  {
    hide GeneratePath, ReadPath, Takes, Choose, Arrives, Unshared, Follow, NobodyTakes, Blocks, FIRST_SPLIT, ENTRY, PREFIX;
    EntryOfFirst(c, jobs, k);
  }

  lemma EntryOfFirst(c: Config, jobs: seq<Job>, k: nat)
    requires |jobs| > 0 && jobs[0].route == SplitRoute()
    ensures EntryBlock(c, jobs, 0, k) == FirstRedirect(c) && !IsPlain(jobs[0].route)
  {
  }

  // ---- where it ends instead ----

  lemma FirstLeads(safe: string, other: Route, added: AddedBlocks, q: Request)
    requires AllWord(safe) && MatchesAnchoredDigits(q) && ValidRoute(other)
    ensures var c := BesideConfig(safe, other, added);
            |c.redirects| > 0 && Expand(EnvOf(c.program), q, c.redirects[0].destination, 4) == Some(FIRST_SPLIT)
  {
    hide WholePass, ConfigOf, Lay, LongestChain, MatchesAnchoredDigits, ValidRoute, RequestSpot, Readable, Distinct, FIRST_SPLIT, ENTRY, PREFIX;
    hide VirtualServerNamer, Beside, GeneratePath, IsPlain, ValidVirtualServer, AllWord, ReadPath, Expand, EnvOf, RouteRedirect, SplitRoute;
    var vs, st := Beside(other, added), StaticSettings(safe);
    var jobs := WholePass(vs).jobs;
    NamesAreReadable(safe);
    NamesAreDistinct(safe);
    BesideJobs(other, added);
    BesideLayout(st, other, added);
    FirstSplitPath(safe);
    FirstRedirectPath(st, other, added);
    var pl := Lay(st, jobs, 0, 0)[0];
    SplitRouteValid();
    RequestLeads(st, vs, pl, q, 4);
    FirstSplitAsked(st, q);
    var c := ConfigOf(st, vs);
    assert c.redirects[0] in RouteRedirect(st, SplitRoute(), 0, 0) by {
      assert [c.redirects[0]][0] == c.redirects[0];
    }
  }

  lemma SplitRouteValid()
    ensures ValidRoute(SplitRoute())
  {
    assert Weights(SplitRoute().splits) == [100, 0];
    SumOfTwo(100, 0);
  }

  /** One more choice decides where the request ends. */
  lemma FollowsChoice(safe: string, other: Route, added: AddedBlocks, q: Request, b: nat)
    requires AllWord(safe) && MatchesAnchoredDigits(q) && ValidRoute(other)
    requires !Takes(ReadPath(GeneratePath(other.path)), q, ENTRY) && NoAddedTakes(added, q, ENTRY)
    requires Choose(BlocksOf(BesideConfig(safe, other, added)), q, FIRST_SPLIT) == Some(b)
    requires var c := BesideConfig(safe, other, added); b >= FirstLocation(c) || b < FirstRedirect(c) || b >= FirstRedirect(c) + |c.redirects|
    ensures var c := BesideConfig(safe, other, added);
            Follow(c, q, ENTRY, 4, URI_CHANGES) == if b >= FirstLocation(c) then Some(b - FirstLocation(c)) else None
  {
    hide ConfigOf, MatchesAnchoredDigits, ValidRoute, AllWord, ReadPath, GeneratePath, Takes, Choose, Expand, EnvOf, VirtualServerNamer, Blocks, FIRST_SPLIT, ENTRY, PREFIX;
    var c := BesideConfig(safe, other, added);
    NamesAreReadable(safe);
    FirstIsEntered(StaticSettings(safe), other, added, q);
    FirstLeads(safe, other, added, q);
    assert Follow(c, q, FIRST_SPLIT, 4, URI_CHANGES - 1) == if b >= FirstLocation(c) then Some(b - FirstLocation(c)) else None;
  }

  lemma DifferentPaths(nm: Namer, s: Spot, s': Spot)
    requires Distinct(nm) && s != s'
    ensures nm.path(s) != nm.path(s')
  {
    if nm.path(s) == nm.path(s') {
      SamePathSameSpot(nm, s, s');
    }
  }

  /** No third block is at the first split's path. */
  lemma NoThird(safe: string, other: Route, added: AddedBlocks, q: Request, k: nat, b: nat)
    requires AllWord(safe) && ValidRoute(other) && IsPlain(other) && NoAddedTakes(added, q, FIRST_SPLIT)
    requires var c := BesideConfig(safe, other, added);
             && k < |c.locations| && c.locations[k].path == FIRST_SPLIT && BlocksOf(c)[FirstLocation(c) + k] == PlainPath(FIRST_SPLIT)
             && b < |BlocksOf(c)| - 1 && b != FirstLocation(c) + k
    requires Takes(ReadPath(GeneratePath(other.path)), q, FIRST_SPLIT) && !IsPrefix(ReadPath(GeneratePath(other.path)))
    ensures !Takes(BlocksOf(BesideConfig(safe, other, added))[b], q, FIRST_SPLIT)
  {
    hide ConfigOf, ValidRoute, AllWord, ReadPath, GeneratePath, VirtualServerNamer, Blocks, WholePass, Lay, ItemsOf, Readable, Distinct, FIRST_SPLIT, ENTRY, PREFIX;
    var st, c := StaticSettings(safe), BesideConfig(safe, other, added);
    var ps, items := BlocksOf(c), ItemsOf(st, Lay(st, WholePass(Beside(other, added)).jobs, 0, 0));
    NamesAreReadable(safe);
    NamesAreDistinct(safe);
    FirstRedirectPath(st, other, added);
    FirstSplitIsPlain();
    if b != FirstRedirect(c) {
      BesideBlock(st, other, added, b);
      BesideBlock(st, other, added, FirstLocation(c) + k);
      if b >= FirstLocation(c) {
        AllSpotsUnique(st, WholePass(Beside(other, added)).jobs, 0, 0);
        var a := b - FirstLocation(c);
        DifferentSpots(items, k, a);
        DifferentPaths(st.namer, items[a].at.spot, items[k].at.spot);
      }
    }
  }

  /** A plain route at an exact path or a regular expression gets the requests. */
  lemma ServedElsewhere(safe: string, other: Route, added: AddedBlocks, q: Request) returns (k: nat)
    requires AllWord(safe) && MatchesAnchoredDigits(q) && ValidRoute(other) && IsPlain(other)
    requires NoAddedTakes(added, q, ENTRY) && NoAddedTakes(added, q, FIRST_SPLIT)
    requires var p := ReadPath(GeneratePath(other.path)); !IsPrefix(p) && !Takes(p, q, ENTRY) && Takes(p, q, FIRST_SPLIT)
    ensures var c := BesideConfig(safe, other, added);
            && k < |c.locations| && Follow(c, q, ENTRY, 4, URI_CHANGES) == Some(k)
            && forall status :: Outcome(c.named + c.pages, c.locations[k], status) == Some(Answered(PREFIX, PagesOf(other.errorPages), other.action, status))
  {
    hide ConfigOf, MatchesAnchoredDigits, ValidRoute, AllWord, ReadPath, GeneratePath, VirtualServerNamer, Blocks, WholePass, Lay, Follow, Choose, Outcome, Answered, Takes, FIRST_SPLIT, ENTRY, PREFIX;
    var c, jobs := BesideConfig(safe, other, added), WholePass(Beside(other, added)).jobs;
    BesideJobs(other, added);
    var first := FirstRouteEnds(safe, other, added, q);
    FirstSplitIsPlain();
    PlainLocation(c, first, FIRST_SPLIT);
    k := OtherRouteEnds(safe, other, added, q);
    var ps, i, j := BlocksOf(c), FirstLocation(c) + first, FirstLocation(c) + k;
    NamesAreReadable(safe);
    FirstRedirectPath(StaticSettings(safe), other, added);
    BesideBlock(StaticSettings(safe), other, added, j);
    forall b | 0 <= b < |ps| && b != i && b != j
      ensures !Takes(ps[b], q, FIRST_SPLIT)
    {
      NoThird(safe, other, added, q, first, b);
    }
    TakerChosen(ps, q, FIRST_SPLIT, i, j);
    FollowsChoice(safe, other, added, q, j);
  }

  lemma PlainLocation(c: Config, k: nat, path: string)
    requires k < |c.locations| && c.locations[k].path == path && ReadPath(path) == PlainPath(path)
    ensures BlocksOf(c)[FirstLocation(c) + k] == PlainPath(path)
  {
    hide ReadPath, Blocks;
    LocationBlock(c.added, c.redirects, c.locations, k);
  }

  lemma OtherRouteEnds(safe: string, other: Route, added: AddedBlocks, q: Request) returns (k: nat)
    requires AllWord(safe) && MatchesAnchoredDigits(q) && ValidRoute(other) && IsPlain(other)
    ensures var c := BesideConfig(safe, other, added);
            && k < |c.locations| && BlocksOf(c)[FirstLocation(c) + k] == ReadPath(GeneratePath(other.path))
            && forall status :: Outcome(c.named + c.pages, c.locations[k], status) == Some(Answered(PREFIX, PagesOf(other.errorPages), other.action, status))
  {
    hide WholePass, ConfigOf, Lay, Outcome, LongestChain, MatchesAnchoredDigits, ValidRoute, RequestSpot, FIRST_SPLIT, ENTRY, PREFIX;
    hide VirtualServerNamer, GeneratePath, ValidVirtualServer, Answered, AllWord, ReadPath, Choose, Follow, Arrives, Unshared, NobodyTakes;
    BesideJobs(other, added);
    NoChain(other.matches);
    k := JobCorrect(safe, false, Beside(other, added), 1, q, ENTRY, 4);
    PlainAction(StaticSettings(safe), other, Lay(StaticSettings(safe), WholePass(Beside(other, added)).jobs, 0, 0)[1].sc, q);
  }

  lemma NoChain(ms: seq<Match>)
    requires |ms| == 0
    ensures LongestChain(ms) == 0
  {
  }

  lemma PlainAction(st: Settings, r: Route, sc: nat, q: Request)
    requires ValidRoute(r) && IsPlain(r)
    ensures RequestAction(st, r, sc, q) == r.action
  {
  }

  /** An exact block that a policy adds at the internal path gets the requests: they end at no
      location of a route. */
  lemma ServedByPolicy(safe: string, other: Route, added: AddedBlocks, q: Request)
    requires AllWord(safe) && MatchesAnchoredDigits(q) && ValidRoute(other)
    requires NoAddedTakes(added, q, ENTRY) && (ExactPath(FIRST_SPLIT) in added.early || ExactPath(FIRST_SPLIT) in added.late)
    requires var p := ReadPath(GeneratePath(other.path)); !Takes(p, q, ENTRY) && !Takes(p, q, FIRST_SPLIT)
    ensures Follow(BesideConfig(safe, other, added), q, ENTRY, 4, URI_CHANGES) == None
  {
    hide ConfigOf, MatchesAnchoredDigits, ValidRoute, AllWord, ReadPath, GeneratePath, VirtualServerNamer, WholePass, Lay, ItemsOf, Follow, FIRST_SPLIT, ENTRY, PREFIX;
    var st, c := StaticSettings(safe), BesideConfig(safe, other, added);
    NamesAreReadable(safe);
    FirstRedirectPath(st, other, added);
    var ps, e := BlocksOf(c), FirstExact(BlocksOf(c), FIRST_SPLIT);
    AddedBlock(c, ExactPath(FIRST_SPLIT));
    hide Blocks;
    BesideBlock(st, other, added, e);
    FollowsChoice(safe, other, added, q, e);
  }

  lemma AddedBlock(c: Config, p: Pattern)
    requires p in c.added.early || p in c.added.late
    ensures exists b :: 0 <= b < |BlocksOf(c)| && BlocksOf(c)[b] == p
  {
    hide Blocks;
    if p in c.added.early {
      var i :| 0 <= i < |c.added.early| && c.added.early[i] == p;
      EarlyBlock(c.added, c.redirects, c.locations, i);
      assert BlocksOf(c)[i] == p;
    } else {
      var i :| 0 <= i < |c.added.late| && c.added.late[i] == p;
      LateBlock(c.added, c.redirects, c.locations, i);
      assert BlocksOf(c)[|c.added.early| + |c.redirects| + i] == p;
    }
  }

  // ---- examples ----

  function OtherRoute(path: string): Route { Route(path, [], [], PassTo("z"), None, []) }

  lemma OtherRouteValid(path: string)
    ensures ValidRoute(OtherRoute(path)) && ValidRoute(OtherRoute(path).(splits := [Split(100, PassTo("z"))]))
  {
    var split := [Split(100, PassTo("z"))];
    assert Weights(split) == [100] && [100][1..] == [] && Sum([100]) == 100;
  }

  /** The internal location of the first route is among the items. */
  lemma FirstItem(safe: string, other: Route, added: AddedBlocks, q: Request) returns (a: nat)
    requires AllWord(safe) && MatchesAnchoredDigits(q) && ValidRoute(other)
    ensures var st := StaticSettings(safe);
            var items := ItemsOf(st, Lay(st, WholePass(Beside(other, added)).jobs, 0, 0));
            && a < |items| == |BesideConfig(safe, other, added).locations| && items[a].at == Internal(SplitSpot(0, 0))
            && BesideConfig(safe, other, added).locations[a].path == FIRST_SPLIT
  {
    hide WholePass, Lay, MatchesAnchoredDigits, ValidRoute, RequestSpot, RequestAction, VirtualServerNamer, Beside, ItemsOf, AllWord, SplitRoute, GeneratePath, FIRST_SPLIT, ENTRY, PREFIX;
    hide ProgramOf, TwoWayOf, GroupsOf, RedirectsOf, Locations, Returns;
    var st := StaticSettings(safe);
    BesideJobs(other, added);
    BesideLayout(st, other, added);
    SplitRouteValid();
    var pls := Lay(st, WholePass(Beside(other, added)).jobs, 0, 0);
    TargetIsGenerated(st, pls, pls[0], q);
    FirstSplitAsked(st, q);
    var x := Target(st, pls[0], q);
    a :| 0 <= a < |ItemsOf(st, pls)| && ItemsOf(st, pls)[a] == x;
    LocationPath(st, ItemsOf(st, pls), a);
    FirstSplitPath(safe);
    FirstSplitIsPlain();
  }

  /** A route at the internal path itself, with or without splits: the path is there twice. */
  lemma PathTwice(safe: string, other: Route, added: AddedBlocks, q: Request) returns (k: nat)
    requires AllWord(safe) && MatchesAnchoredDigits(q) && ValidRoute(other) && other.path == FIRST_SPLIT && NoAddedTakes(added, q, ENTRY)
    ensures var c := BesideConfig(safe, other, added); Lost(c, q, k) && !Unshared(BlocksOf(c), FirstLocation(c) + k)
  {
    hide ConfigOf, MatchesAnchoredDigits, ValidRoute, AllWord, ReadPath, GeneratePath, VirtualServerNamer, Blocks, WholePass, Lay, ItemsOf, Choose, Arrives, FIRST_SPLIT, ENTRY, PREFIX;
    var st, c := StaticSettings(safe), BesideConfig(safe, other, added);
    var jobs := WholePass(Beside(other, added)).jobs;
    FirstSplitIsPlain();
    BesideJobs(other, added);
    k := InternalPathCanBeTaken(safe, other, added, q);
    var a := FirstItem(safe, other, added, q);
    PlainLocation(c, a, FIRST_SPLIT);
    var b := SecondBlock(st, other, added);
    var ps := BlocksOf(c);
    assert ps[FirstLocation(c) + a] == ps[b] == ps[FirstLocation(c) + k] == PlainPath(FIRST_SPLIT);
  }

  lemma SecondBlock(st: Settings, other: Route, added: AddedBlocks) returns (b: nat)
    requires ValidRoute(other)
    ensures var c := ConfigOf(st, Beside(other, added));
            var items := ItemsOf(st, Lay(st, WholePass(Beside(other, added)).jobs, 0, 0));
            && b < |BlocksOf(c)| && |items| == |c.locations| && BlocksOf(c)[b] == ReadPath(GeneratePath(other.path))
            && (b >= FirstLocation(c) ==> items[b - FirstLocation(c)].at.External?)
  {
    hide ReadPath, GeneratePath, Blocks, ItemsOf, RedirectsOf, Lay, Locations, ProgramOf, TwoWayOf, GroupsOf, Returns, ValidRoute, FIRST_SPLIT, ENTRY, PREFIX;
    BesideJobs(other, added);
    hide WholePass;
    b := RouteBlock(st, added, WholePass(Beside(other, added)).jobs, 1);
  }

  lemma RegexIsRead(re: string)
    requires |re| > 0 && re[0] == '^'
    ensures ReadPath(GeneratePath("~ " + re)) == RegexPath(re)
  {
    var path, quoted := "~ " + re, "\"" + re + "\"";
    assert path[0] == '~' && path[1] == ' ' && path[1..] == " " + re;
    assert (" " + re)[1..] == re && TrimLeft(re) == re && TrimLeft(" " + re) == re;
    var text := "~ " + quoted;
    assert GeneratePath(path) == "~ \"" + re + "\"" == text;
    assert text[..2] == "~ " && text[0] == '~' && text[1] == ' ' && text[2..] == quoted;
    assert quoted[1..|quoted| - 1] == re;
    hide GeneratePath;
    assert !StartsWith(text, "= ") && !StartsWith(text, "^~ ") && !StartsWith(text, "~* ") && StartsWith(text, "~ ");
  }

  /** The internal path as an exact path, or a regular expression that matches it and not the first
      route's path: the requests of the first route end with the other's action. */
  lemma TakingRoutes(safe: string, q: Request, exact: bool) returns (k: nat)
    requires AllWord(safe) && MatchesAnchoredDigits(q)
    requires q.regex("^/internal_", FIRST_SPLIT) && !q.regex("^/internal_", ENTRY)
    ensures var other := OtherRoute(if exact then "=" + FIRST_SPLIT else "~ ^/internal_");
            var c := BesideConfig(safe, other, NO_BLOCKS);
            && ValidVirtualServer(Beside(other, NO_BLOCKS))
            && k < |c.locations| && Follow(c, q, ENTRY, 4, URI_CHANGES) == Some(k)
            && forall status :: Outcome(c.named + c.pages, c.locations[k], status) == Some(Proxied("vs_ns_cafe_z"))
  {
    hide ReadPath, GeneratePath, ConfigOf, ValidRoute, AllWord, MatchesAnchoredDigits, Follow, Outcome, Answered, ValidVirtualServer, VirtualServerNamer;
    var other := OtherRoute(if exact then "=" + FIRST_SPLIT else "~ ^/internal_");
    OtherRouteValid(other.path);
    FirstSplitIsPlain();
    if exact {
      assert FIRST_SPLIT[0] == '/';
      SlashPath(FIRST_SPLIT);
    } else {
      RegexIsRead("^/internal_");
      assert "~ " + "^/internal_" == "~ ^/internal_";
    }
    BesideJobs(other, NO_BLOCKS);
    k := ServedElsewhere(safe, other, NO_BLOCKS, q);
    NoPages(PassTo("z"));
  }

  lemma NoPages(a: Action)
    requires a == PassTo("z")
    ensures forall status :: Answered(PREFIX, [], a, status) == Proxied("vs_ns_cafe_z")
  {
    assert PREFIX + "_" + "z" == "vs_ns_cafe_z";
  }
}
