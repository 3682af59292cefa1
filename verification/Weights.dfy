/** Weights that change without a reload: the Configurator stores, for every two-way split,
    a key that names the wanted weights, and the generated map turns it into them. */
module Weights {
  import opened Text
  import opened Nginx
  import opened LocationChoice
  import opened Routes
  import opened Compile
  import opened VariableNames
  import opened Layout
  import opened RouteMeaning
  import opened Definitions
  import opened VirtualServers
  import opened Sites

  datatype WeightUpdate = WeightUpdate(zone: string, key: string, value: string)

  type Store = map<(string, string), string>

  /** The update the Configurator derives from one two-way split. */
  function UpdateFor(st: Settings, t: TwoWaySplitClients): WeightUpdate {
    WeightUpdate(t.zone, t.key, st.namer.weightKey(t.index, t.weights.0, t.weights.1))
  }

  function Upsert(s: Store, u: WeightUpdate): Store {
    s[(u.zone, TrimQuotes(u.key)) := TrimQuotes(u.value)]
  }

  function UpsertAll(st: Settings, s: Store, ts: seq<TwoWaySplitClients>): Store
    decreases |ts|
  {
    if |ts| == 0 then s else UpsertAll(st, Upsert(s, UpdateFor(st, ts[0])), ts[1..])
  }

  /** The loop that sends all updates of a VirtualServer. */
  method SendUpdates(st: Settings, s: Store, ts: seq<TwoWaySplitClients>) returns (r: Store)
    ensures r == UpsertAll(st, s, ts)
  {
    r := s;
    var i := 0;
    while i < |ts|
      invariant 0 <= i <= |ts|
      invariant UpsertAll(st, r, ts[i..]) == UpsertAll(st, s, ts)
    {
      assert ts[i..][1..] == ts[i + 1..];
      r := Upsert(r, UpdateFor(st, ts[i]));
      i := i + 1;
    }
  }

  function DeclaredKey(st: Settings, g: Group): string
    requires |g.splits| == 2
  {
    Unquote(st.namer.weightKey(g.index, g.splits[0].weight, g.splits[1].weight))
  }

  function Slot(st: Settings, sc: nat): (string, string) {
    (st.namer.zone(sc), Unquote(st.namer.keyvalKey(sc)))
  }

  /** What is stored for a group is the key for its declared weights. */
  predicate StoresDeclared(st: Settings, g: Group, s: Store) {
    IsTwoWay(st, g.splits) ==> Slot(st, g.index) in s && s[Slot(st, g.index)] == DeclaredKey(st, g)
  }

  lemma {:induction false} UpsertAllKeeps(st: Settings, s: Store, gs: seq<Group>, lo: nat, at: (string, string))
    requires Readable(st.namer) && Packed(st, gs, lo)
    requires forall g :: g in gs ==> st.namer.zone(g.index) != at.0
    ensures at in UpsertAll(st, s, TwoWayOf(st, gs)) <==> at in s
    ensures at in s ==> UpsertAll(st, s, TwoWayOf(st, gs))[at] == s[at]
    decreases |gs|
  {
    if |gs| > 0 {
      var ts := TwoWayOf(st, gs);
      var lo' := lo + Width(st, gs[0].splits);
      if IsTwoWay(st, gs[0].splits) {
        assert ts[1..] == TwoWayOf(st, gs[1..]);
        UpsertAllKeeps(st, Upsert(s, UpdateFor(st, ts[0])), gs[1..], lo', at);
      } else {
        assert ts == TwoWayOf(st, gs[1..]);
        UpsertAllKeeps(st, s, gs[1..], lo', at);
      }
    }
  }

  /** After the updates of a VirtualServer are sent, every two-way split of it has the key
      for its declared weights, whatever was stored before. */
  lemma {:induction false} UpdatesStoreDeclared(st: Settings, s: Store, gs: seq<Group>, lo: nat)
    requires Readable(st.namer) && Distinct(st.namer) && Packed(st, gs, lo)
    ensures forall g :: g in gs ==> StoresDeclared(st, g, UpsertAll(st, s, TwoWayOf(st, gs)))
    decreases |gs|
  {
    if |gs| > 0 {
      hide Packed, StoresDeclared, Readable, Distinct;
      var ts := TwoWayOf(st, gs);
      assert Packed(st, gs[1..], lo + Width(st, gs[0].splits)) by { PackedTail(st, gs, lo); }
      if IsTwoWay(st, gs[0].splits) {
        assert ts[1..] == TwoWayOf(st, gs[1..]);
        UpdatesStoreDeclared(st, Upsert(s, UpdateFor(st, ts[0])), gs[1..], lo + Width(st, gs[0].splits));
        FirstStays(st, s, gs, lo);
      } else {
        assert ts == TwoWayOf(st, gs[1..]);
        UpdatesStoreDeclared(st, s, gs[1..], lo + Width(st, gs[0].splits));
        assert StoresDeclared(st, gs[0], UpsertAll(st, s, ts)) by { NotTwoWay(st, gs[0], UpsertAll(st, s, ts)); }
      }
    }
  }

  lemma NotTwoWay(st: Settings, g: Group, s: Store)
    requires !IsTwoWay(st, g.splits)
    ensures StoresDeclared(st, g, s)
  {
  }

  lemma PackedTail(st: Settings, gs: seq<Group>, lo: nat)
    requires |gs| > 0 && Packed(st, gs, lo)
    ensures Packed(st, gs[1..], lo + Width(st, gs[0].splits)) && gs[0].index == lo && Width(st, gs[0].splits) > 0
  {
  }

  lemma FirstStays(st: Settings, s: Store, gs: seq<Group>, lo: nat)
    requires Readable(st.namer) && Distinct(st.namer) && |gs| > 0 && Packed(st, gs, lo) && IsTwoWay(st, gs[0].splits)
    ensures StoresDeclared(st, gs[0], UpsertAll(st, s, TwoWayOf(st, gs)))
  {
    var ts, g := TwoWayOf(st, gs), gs[0];
    var s' := Upsert(s, UpdateFor(st, ts[0]));
    assert ts[1..] == TwoWayOf(st, gs[1..]);
    assert PlainQuoted(st.namer.keyvalKey(g.index));
    assert PlainQuoted(st.namer.weightKey(g.index, g.splits[0].weight, g.splits[1].weight));
    assert StoresDeclared(st, g, s');
    var lo' := lo + Width(st, g.splits);
    PackedBounds(st, gs[1..], lo');
    forall g' | g' in gs[1..] ensures st.namer.zone(g'.index) != st.namer.zone(g.index) {
      assert g'.index != g.index;
    }
    UpsertAllKeeps(st, s', gs[1..], lo', Slot(st, g.index));
  }

  // ---- the stored weights rule ----

  lemma DeclaredShare(st: Settings, g: Group)
    requires Distinct(st.namer) && |g.splits| == 2 && g.splits[0].weight + g.splits[1].weight == 100
    ensures FirstKey(ShareKeys(st, g.index), DeclaredKey(st, g)) == Some(g.splits[0].weight)
  {
    hide Decode, Unquote;
    var keys, w := ShareKeys(st, g.index), g.splits[0].weight;
    assert keys[w] == DeclaredKey(st, g);
    var r := FirstKey(keys, DeclaredKey(st, g));
    assert SameText(keys[w], DeclaredKey(st, g));
    var i := r.value;
    assert keys[i] == Unquote(st.namer.weightKey(g.index, i, 100 - i));
  }

  lemma WeightsOfTwo(splits: seq<Split>)
    requires |splits| == 2 && ValidSplits(splits)
    ensures splits[0].weight + splits[1].weight == 100
    ensures Weights(splits) == [splits[0].weight, splits[1].weight]
  {
    assert Weights(splits) == [splits[0].weight, splits[1].weight];
    SumOfTwo(splits[0].weight, splits[1].weight);
  }

  /** Dynamic weights refine static splits: with the declared key stored, a two-way split
      divides the hash space exactly as the static split client for its weights does. */
  lemma DynamicRefinesStatic(st: Settings, g: Group, q: Request)
    requires Distinct(st.namer) && ValidSplits(g.splits) && StoresDeclared(st, g, q.store)
    ensures Shares(st, g, q) == Weights(g.splits)
  {
    if IsTwoWay(st, g.splits) {
      WeightsOfTwo(g.splits);
      DeclaredShare(st, g);
    }
  }

  lemma NothingSpellsNoKey(st: Settings, sc: nat)
    requires Readable(st.namer)
    ensures FirstKey(ShareKeys(st, sc), "") == None
  {
    hide Decode, Unquote, TrimQuotes, SameText, FirstKey;
    var keys := ShareKeys(st, sc);
    forall i | 0 <= i < |keys| ensures !SameText(keys[i], "") {
      assert PlainQuoted(st.namer.weightKey(sc, i, 100 - i));
      NonEmptyDiffers(keys[i]);
    }
    FirstKeyNone(keys, "");
  }

  lemma FirstKeyNone(keys: seq<string>, value: string)
    requires forall i :: 0 <= i < |keys| ==> !SameText(keys[i], value)
    ensures FirstKey(keys, value) == None
  {
  }

  lemma NonEmptyDiffers(k: string)
    requires |k| > 0
    ensures !SameText(k, "")
  {
    assert |Lower(k)| != |Lower("")|;
  }

  /** With no key stored, everything goes to the heavier split, ties to the first. */
  lemma HeavierWithoutKey(st: Settings, g: Group, q: Request)
    requires Readable(st.namer) && ValidSplits(g.splits) && IsTwoWay(st, g.splits)
    requires Slot(st, g.index) !in q.store
    ensures Shares(st, g, q) == if g.splits[0].weight < g.splits[1].weight then [0, 100] else [100, 0]
  {
    hide Readable, FirstKey, ShareKeys, Unquote;
    NothingSpellsNoKey(st, g.index);
  }

  // ---- what a route asks for, without any generated name ----

  /** The action a route asks for: of the first match that holds, or the default; and of its
      splits, the one whose share of the hash space the request falls in. */
  function Asked(r: Route, q: Request): Action
    requires ValidRoute(r)
  {
    var k := FirstMatch(r.matches, 0, q);
    assert k < |r.matches| ==> ValidMatch(r.matches[k]);
    var splits := if k < |r.matches| then r.matches[k].splits else r.splits;
    if |splits| > 0 then splits[Chosen(Weights(splits), 0, Bucket(q))].action
    else if k < |r.matches| then r.matches[k].action
    else r.action
  }

  /** Once the declared weights are stored, and always when weights are static, the request
      gets the action that the route asks for. */
  lemma RequestIsAsked(st: Settings, r: Route, sc: nat, q: Request)
    requires Distinct(st.namer) && ValidRoute(r)
    requires forall g :: g in RouteGroups(st, r, sc) ==> StoresDeclared(st, g, q.store)
    ensures RequestAction(st, r, sc, q) == Asked(r, q)
  {
    var k, g := FirstMatch(r.matches, 0, q), RequestGroup(st, r, sc, q);
    if |g.splits| > 0 {
      RequestGroupMember(st, r, sc, q);
      hide StoresDeclared, RouteGroups;
      DynamicRefinesStatic(st, g, q);
    }
  }

  lemma RequestGroupMember(st: Settings, r: Route, sc: nat, q: Request)
    requires ValidRoute(r) && |RequestGroup(st, r, sc, q).splits| > 0
    ensures RequestGroup(st, r, sc, q) in RouteGroups(st, r, sc)
  {
    var k := FirstMatch(r.matches, 0, q);
    if k < |r.matches| {
      MatchGroupMember(st, r.matches, 0, k, sc);
    }
  }

  lemma {:induction false} RouteGroupsMember(st: Settings, pls: seq<Placed>, n: nat)
    requires n < |pls|
    ensures forall g :: g in RouteGroups(st, pls[n].job.route, pls[n].sc) ==> g in GroupsOf(st, pls)
  {
    RoutingMapMember(st, pls, pls[n]);
  }

  /** The end-to-end result. Generate the configuration of any valid VirtualServer, send its
      weight updates to a store with any content, and let any request enter the block of any
      of its routes or of any subroute: unless the path of some route or subroute, or some added
      block, takes the internal path in between, it ends at a location that does what the action
      asked for means, with the error pages in force, whatever the upstream answers. Nothing on the
      asking side mentions a generated name, index or variable. */
  lemma RequestsAreServed(safe: string, dynamic: bool, vs: VirtualServer, before: Store, w: Site, q: Request, uri: string, depth: nat)
    returns (b: nat, k: nat)
    requires AllWord(safe) && ValidVirtualServer(vs) && MatchesAnchoredDigits(q)
    requires IsSite(vs, w) && depth >= LongestChain(RouteAt(vs, w).matches) + 4
    requires var st := Settings(VirtualServerNamer(safe), dynamic);
             q.store == UpsertAll(st, before, ConfigOf(st, vs).twoWay)
    ensures var c := ConfigOf(Settings(VirtualServerNamer(safe), dynamic), vs);
            && ValidRoute(RouteAt(vs, w))
            && k < |c.locations| && b < |BlocksOf(c)| && ServedAt(c, vs, w, q, uri, depth, b, k)
            && (forall status :: Outcome(c.named + c.pages, c.locations[k], status) ==
                  Some(Answered(PrefixAt(vs, w), PagesAt(vs, w), Asked(RouteAt(vs, w), q), status)))
            && (Choose(BlocksOf(c), q, uri) == Some(b) && (IsPlain(RouteAt(vs, w)) || NoneTakes(vs, q, c.locations[k].path)) ==>
                  Follow(c, q, uri, depth, URI_CHANGES) == Some(k))
  {
    var st := Settings(VirtualServerNamer(safe), dynamic);
    var jobs, c, n := WholePass(vs).jobs, ConfigOf(st, vs), IndexAt(vs, w);
    var pls := Lay(st, jobs, 0, 0);
    hide VirtualServerNamer, WholePass, Lay, ProgramOf, RedirectsOf, Locations, Returns, ItemsOf, GroupsOf, TwoWayOf;
    hide Outcome, ServedAt, Answered, Asked, RequestAction, LongestChain, ValidVirtualServer, MatchesAnchoredDigits, ValidRoute;
    hide UpsertAll, StoresDeclared, Readable, Distinct, Packed, RouteGroups, Follow, Choose, NoneTakes, IsPlain, BlocksOf;
    hide IsSite, RouteAt, PagesAt, PrefixAt, IndexAt, AllWord;
    b, k := VirtualServerCorrect(safe, dynamic, vs, w, q, uri, depth);
    NamesAreReadable(safe);
    NamesAreDistinct(safe);
    GroupsArePacked(st, jobs, 0, 0);
    UpdatesStoreDeclared(st, before, GroupsOf(st, pls), 0);
    RouteGroupsMember(st, pls, n);
    JobAt(vs, w);
    RequestIsAsked(st, RouteAt(vs, w), pls[n].sc, q);
    ServedFollow(c, vs, w, q, uri, depth, b, k);
  }

  lemma ServedFollow(c: Config, vs: VirtualServer, w: Site, q: Request, uri: string, depth: nat, b: nat, k: nat)
    requires IsSite(vs, w) && k < |c.locations| && b < |BlocksOf(c)| && ServedAt(c, vs, w, q, uri, depth, b, k)
    ensures Choose(BlocksOf(c), q, uri) == Some(b) && (IsPlain(RouteAt(vs, w)) || NoneTakes(vs, q, c.locations[k].path)) ==>
              Follow(c, q, uri, depth, URI_CHANGES) == Some(k)
  {
    hide Follow, Choose, NoneTakes, RoutePattern, Unshared, Expand, EnvOf;
    if Arrives(c, q, uri, depth, k) {
      ArrivesFollow(c, q, uri, depth, k);
    }
  }
}
