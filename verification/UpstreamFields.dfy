/** What every generated upstream holds, field by field, in the file and in a push: its servers are
    those of its service and its parameters are its own or the defaults. */
module UpstreamFields {
  import opened Text
  import Names = ResourceNames
  import opened PlusEndpoints

  /** An upstream of the VirtualServer itself or of one of its VirtualServerRoutes. */
  datatype Place = OfSpec(i: nat) | OfRoute(route: nat, i: nat)

  predicate IsPlace(vs: VirtualServerEx, w: Place) {
    match w
    case OfSpec(i) => i < |vs.upstreams|
    case OfRoute(r, i) => r < |vs.routes| && i < |vs.routes[r].upstreams|
  }

  function SpecAt(vs: VirtualServerEx, w: Place): UpstreamSpec
    requires IsPlace(vs, w)
  {
    match w
    case OfSpec(i) => vs.upstreams[i]
    case OfRoute(r, i) => vs.routes[r].upstreams[i]
  }

  function NamespaceAt(vs: VirtualServerEx, w: Place): string
    requires IsPlace(vs, w)
  {
    match w
    case OfSpec(_) => vs.namespace
    case OfRoute(r, _) => vs.routes[r].namespace
  }

  function NameAt(vs: VirtualServerEx, w: Place): string
    requires IsPlace(vs, w)
  {
    match w
    case OfSpec(i) => "vs_" + vs.namespace + "_" + vs.name + "_" + vs.upstreams[i].name
    case OfRoute(r, i) =>
      "vs_" + vs.namespace + "_" + vs.name + "_vsr_" + vs.routes[r].namespace + "_" + vs.routes[r].name + "_" + vs.routes[r].upstreams[i].name
  }

  /** A service reference with exactly one slash names a namespace and a service. */
  ghost predicate Refers(ref: string, ns: string, at: string, service: string) {
    || (ref == at + "/" + service && Lacks(at, '/') && Lacks(service, '/'))
    || (at == ns && service == ref && forall a, b :: ref == a + "/" + b ==> !(Lacks(a, '/') && Lacks(b, '/')))
  }

  /** The addresses stored for the upstream's service, subselector and port. */
  ghost predicate StoredFor(vs: VirtualServerEx, ns: string, u: UpstreamSpec, found: seq<string>) {
    exists at, service ::
      && Refers(u.service, ns, at, service)
      && var key := at + "/" + service + (if u.subselector == "" then ":" else "_" + u.subselector + ":") + Dec(u.port);
         found == if key in vs.endpoints then vs.endpoints[key] else []
  }

  predicate HoldsSorted(servers: seq<string>, found: seq<string>) { Ordered(servers) && multiset(servers) == multiset(found) }

  /** The balancing method in force: the upstream's own, the default without one; `round_robin`
      is written as nothing. */
  predicate Balances(p: Params, u: UpstreamSpec, lb: string) {
    && (u.lbMethod == "" ==> lb == p.lbMethod)
    && (u.lbMethod == "round_robin" ==> lb == "")
    && (u.lbMethod != "" && u.lbMethod != "round_robin" ==> lb == u.lbMethod)
  }

  predicate AllowsSlowStart(lb: string) {
    && lb != "random" && lb != "ip_hash" && lb != "random two" && lb != "random two least_conn"
    && lb != "random two least_time=header" && lb != "random two least_time=last_byte"
    && !StartsWith(lb, "hash")
  }

  /** The parameters of every server: the upstream's own where it has them, else the defaults. Slow
      start is for NGINX Plus, and not for every balancing method. */
  ghost predicate HasParameters(p: Params, plus: bool, u: UpstreamSpec, c: ServerConfig) {
    && (u.maxFails.Some? ==> c.maxFails == u.maxFails.value) && (u.maxFails.None? ==> c.maxFails == p.maxFails)
    && (u.maxConns.Some? ==> c.maxConns == u.maxConns.value) && (u.maxConns.None? ==> c.maxConns == p.maxConns)
    && (u.failTimeout != "" ==> c.failTimeout == p.time(u.failTimeout)) && (u.failTimeout == "" ==> c.failTimeout == p.failTimeout)
    && exists lb :: Balances(p, u, lb) && c.slowStart == if plus && u.slowStart != "" && AllowsSlowStart(lb) then p.time(u.slowStart) else ""
  }

  /** The mark that the upstream's service is an ExternalName service. */
  function MarkKey(ns: string, u: UpstreamSpec): string { ns + "/" + u.service }

  // ---- references ----

  lemma {:induction false} SlashIsFirst(s: string)
    ensures Slash(s) <= |s| && Lacks(s[..Slash(s)], '/') && (Slash(s) < |s| ==> s[Slash(s)] == '/')
  {
    if |s| > 0 && s[0] != '/' {
      SlashIsFirst(s[1..]);
      var i := Slash(s[1..]);
      assert s[..i + 1] == [s[0]] + s[1..][..i];
    }
  }

  /** The parsed reference is what the reference means. */
  lemma ReferenceParsed(ref: string, ns: string)
    ensures var (at, service) := ServiceReference(ref, ns); Refers(ref, ns, at, service)
  {
    var i := Slash(ref);
    SlashIsFirst(ref);
    hide Slash;
    if i < |ref| && Lacks(ref[i + 1..], '/') {
      assert ref == ref[..i] + "/" + ref[i + 1..];
    } else {
      forall a, b | ref == a + "/" + b
        ensures !(Lacks(a, '/') && Lacks(b, '/'))
      {
        assert ref[|a|] == '/';
        if Lacks(a, '/') {
          assert i == |a| && ref[i + 1..] == b;
        }
      }
    }
  }

  lemma EndpointsStored(vs: VirtualServerEx, x: Slot)
    ensures StoredFor(vs, x.namespace, x.spec, Endpoints(vs, x))
  {
    ReferenceParsed(x.spec.service, x.namespace);
    var (at, service) := ServiceReference(x.spec.service, x.namespace);
    var u := x.spec;
    assert Refers(u.service, x.namespace, at, service);
    SameKey(at + "/" + service, u.subselector, Dec(u.port));
    hide ServiceReference, Refers;
  }

  lemma SameKey(service: string, subselector: string, port: string)
    ensures service + (if subselector == "" then "" else "_" + subselector) + ":" + port ==
            service + (if subselector == "" then ":" else "_" + subselector + ":") + port
  {
    if subselector == "" {
      assert service + "" == service;
    } else {
      assert service + ("_" + subselector) + ":" == service + ("_" + subselector + ":");
    }
  }

  // ---- one upstream ----

  lemma GeneratedFields(p: Params, name: string, u: UpstreamSpec, found: seq<string>)
    ensures var g := Generate(p, name, u, found);
            g.name == name && HoldsSorted(g.servers, found) && HasParameters(p, p.plus, u, g.config)
  {
    SortedOrdered(found);
    hide Sorted, Ordered;
    var lb := LbMethod(u.lbMethod, p.lbMethod);
    assert Balances(p, u, lb);
    assert AllowsSlowStart(lb) <==> !(lb in NO_SLOW_START || StartsWith(lb, "hash"));
  }

  /** The slot of an upstream. */
  lemma SlotAt(vs: VirtualServerEx, w: Place) returns (x: Slot)
    requires IsPlace(vs, w)
    ensures x in Slots(vs) && x.namespace == NamespaceAt(vs, w) && x.spec == SpecAt(vs, w) && Names.UpstreamName(x.id) == NameAt(vs, w)
  {
    match w
    case OfSpec(i) =>
      x := SpecSlots(vs)[i];
      assert Slots(vs)[i] == x;
    case OfRoute(r, i) =>
      x := RouteSlots(vs, vs.routes[r])[i];
      assert x in RouteSlots(vs, vs.routes[r]);
      RouteSlotsMember(vs, |vs.routes|, r);
      assert vs.routes[..|vs.routes|] == vs.routes;
  }

  lemma {:induction false} RouteSlotsMember(vs: VirtualServerEx, n: nat, r: nat)
    requires r < n <= |vs.routes|
    ensures forall x :: x in RouteSlots(vs, vs.routes[r]) ==> x in AllRouteSlots(vs, vs.routes[..n])
  {
    hide RouteSlots;
    assert vs.routes[..n][..n - 1] == vs.routes[..n - 1] && vs.routes[..n][n - 1] == vs.routes[n - 1];
    if r < n - 1 {
      RouteSlotsMember(vs, n - 1, r);
    }
  }

  /** And there is no other slot. */
  lemma SlotPlace(vs: VirtualServerEx, x: Slot) returns (w: Place)
    requires x in Slots(vs)
    ensures IsPlace(vs, w) && x.namespace == NamespaceAt(vs, w) && x.spec == SpecAt(vs, w) && Names.UpstreamName(x.id) == NameAt(vs, w)
  {
    if x in SpecSlots(vs) {
      var i :| 0 <= i < |vs.upstreams| && SpecSlots(vs)[i] == x;
      w := OfSpec(i);
    } else {
      assert vs.routes[..|vs.routes|] == vs.routes;
      var r := SlotRoute(vs, |vs.routes|, x);
      var i :| 0 <= i < |vs.routes[r].upstreams| && RouteSlots(vs, vs.routes[r])[i] == x;
      w := OfRoute(r, i);
    }
  }

  lemma {:induction false} SlotRoute(vs: VirtualServerEx, n: nat, x: Slot) returns (r: nat)
    requires n <= |vs.routes| && x in AllRouteSlots(vs, vs.routes[..n])
    ensures r < n && x in RouteSlots(vs, vs.routes[r])
    decreases n
  {
    hide RouteSlots;
    assert vs.routes[..n][..n - 1] == vs.routes[..n - 1];
    if x in RouteSlots(vs, vs.routes[n - 1]) {
      r := n - 1;
    } else {
      r := SlotRoute(vs, n - 1, x);
    }
  }

  // ---- the file ----

  /** The servers in the file. Without NGINX Plus an upstream without endpoints has the server
      that answers 502, and an ExternalName service needs a resolver. */
  ghost predicate FileServers(p: Params, vs: VirtualServerEx, ns: string, u: UpstreamSpec, servers: seq<string>) {
    exists found ::
      && StoredFor(vs, ns, u, found)
      && if !p.plus && found == [] then servers == ["unix:/var/lib/nginx/nginx-502-server.sock"]
         else if MarkKey(ns, u) in vs.externalNames && !p.resolver then servers == []
         else HoldsSorted(servers, found)
  }

  ghost predicate FiledFor(p: Params, vs: VirtualServerEx, w: Place, g: Upstream)
    requires IsPlace(vs, w)
  {
    var u := SpecAt(vs, w);
    g.name == NameAt(vs, w) && FileServers(p, vs, NamespaceAt(vs, w), u, g.servers) && HasParameters(p, p.plus, u, g.config)
  }

  lemma FiledSlot(p: Params, vs: VirtualServerEx, x: Slot)
    ensures var g := InFile(p, vs, x);
            && g.name == Names.UpstreamName(x.id) && FileServers(p, vs, x.namespace, x.spec, g.servers)
            && HasParameters(p, p.plus, x.spec, g.config)
  {
    var found := Endpoints(vs, x);
    EndpointsStored(vs, x);
    var endpoints := if !p.plus && |found| == 0 then [SERVER_502] else if External(vs, x) && !p.resolver then [] else found;
    GeneratedFields(p, Names.UpstreamName(x.id), x.spec, endpoints);
    SortedSingle(SERVER_502);
    hide Endpoints, StoredFor, HasParameters, Names.UpstreamName, Sorted, Ordered, SERVER_502, SlowStart, OrElse, LbMethod;
    var servers := InFile(p, vs, x).servers;
    assert |found| == 0 ==> found == [];
    assert endpoints == [] ==> servers == [] by { SortedNone(); }
    Answers502();
  }

  lemma Answers502()
    ensures SERVER_502 == "unix:/var/lib/nginx/nginx-502-server.sock"
  {
  }

  lemma SortedSingle(s: string)
    ensures Sorted([s]) == [s]
  {
    assert [s][..0] == [];
    assert Sorted([s][..0]) == [];
    assert Insert(s, []) == [s];
  }

  lemma SortedNone()
    ensures Sorted([]) == []
  {
  }

  /** Every upstream of the resources is in the file with its own fields, and the file has no
      other upstream. */
  lemma FileFields(p: Params, vs: VirtualServerEx)
    ensures forall w :: IsPlace(vs, w) ==> exists g :: g in FileOf(p, vs) && FiledFor(p, vs, w, g)
    ensures forall g :: g in FileOf(p, vs) ==> exists w :: IsPlace(vs, w) && FiledFor(p, vs, w, g)
  {
    FileCount(p, vs, Slots(vs));
    var xs, us := Slots(vs), FileOf(p, vs);
    hide Slots, FileUpstreams, InFile, SpecAt, NamespaceAt, NameAt, IsPlace, FileServers, HasParameters, Names.UpstreamName;
    forall w | IsPlace(vs, w)
      ensures exists g :: g in us && FiledFor(p, vs, w, g)
    {
      var x := SlotAt(vs, w);
      var i :| 0 <= i < |xs| && xs[i] == x;
      FiledSlot(p, vs, x);
      assert us[i] in us && FiledFor(p, vs, w, us[i]);
    }
    forall g | g in us
      ensures exists w :: IsPlace(vs, w) && FiledFor(p, vs, w, g)
    {
      var i :| 0 <= i < |us| && us[i] == g;
      FiledSlot(p, vs, xs[i]);
      assert xs[i] in xs;
      var w := SlotPlace(vs, xs[i]);
      assert FiledFor(p, vs, w, g);
    }
  }

  // ---- the push ----

  /** The service is an ExternalName service: nothing is pushed for it. */
  predicate Marked(vs: VirtualServerEx, w: Place)
    requires IsPlace(vs, w)
  {
    var key := MarkKey(NamespaceAt(vs, w), SpecAt(vs, w));
    key in vs.externalNames && vs.externalNames[key]
  }

  ghost predicate PushedFor(p: Params, vs: VirtualServerEx, w: Place, g: Upstream)
    requires IsPlace(vs, w)
  {
    var u := SpecAt(vs, w);
    && g.name == NameAt(vs, w) && HasParameters(p, true, u, g.config)
    && exists found :: StoredFor(vs, NamespaceAt(vs, w), u, found) && HoldsSorted(g.servers, found)
  }

  lemma {:induction false} PushedMembers(p: Params, vs: VirtualServerEx, xs: seq<Slot>)
    ensures forall x :: x in xs && !Skipped(vs, x) ==> Generate(ForPlus(p), Names.UpstreamName(x.id), x.spec, Endpoints(vs, x)) in Pushed(p, vs, xs)
    ensures forall g :: g in Pushed(p, vs, xs) ==>
              exists x :: x in xs && !Skipped(vs, x) && g == Generate(ForPlus(p), Names.UpstreamName(x.id), x.spec, Endpoints(vs, x))
  {
    hide Skipped, Generate, Endpoints, Names.UpstreamName;
    if |xs| > 0 {
      PushedMembers(p, vs, xs[..|xs| - 1]);
      assert xs == xs[..|xs| - 1] + [xs[|xs| - 1]];
    }
  }

  lemma PushedSlot(p: Params, vs: VirtualServerEx, w: Place, x: Slot)
    requires IsPlace(vs, w) && x.namespace == NamespaceAt(vs, w) && x.spec == SpecAt(vs, w) && Names.UpstreamName(x.id) == NameAt(vs, w)
    ensures Skipped(vs, x) <==> Marked(vs, w)
    ensures PushedFor(p, vs, w, Generate(ForPlus(p), Names.UpstreamName(x.id), x.spec, Endpoints(vs, x)))
  {
    EndpointsStored(vs, x);
    GeneratedFields(ForPlus(p), Names.UpstreamName(x.id), x.spec, Endpoints(vs, x));
    PlusParameters(p, x.spec, Generate(ForPlus(p), Names.UpstreamName(x.id), x.spec, Endpoints(vs, x)).config);
    hide Generate, Endpoints, StoredFor, HasParameters, HoldsSorted, Names.UpstreamName, SpecAt, NamespaceAt, NameAt, IsPlace;
  }

  lemma PlusParameters(p: Params, u: UpstreamSpec, c: ServerConfig)
    requires HasParameters(ForPlus(p), true, u, c)
    ensures HasParameters(p, true, u, c)
  {
    var lb :| Balances(ForPlus(p), u, lb) && c.slowStart == if u.slowStart != "" && AllowsSlowStart(lb) then p.time(u.slowStart) else "";
    assert Balances(p, u, lb);
  }

  /** Every upstream whose service is no ExternalName service is pushed with its own fields, and
      nothing else is pushed. */
  lemma PushFields(p: Params, vs: VirtualServerEx)
    ensures forall w :: IsPlace(vs, w) && !Marked(vs, w) ==> exists g :: g in Pushed(p, vs, Slots(vs)) && PushedFor(p, vs, w, g)
    ensures forall g :: g in Pushed(p, vs, Slots(vs)) ==> exists w :: IsPlace(vs, w) && !Marked(vs, w) && PushedFor(p, vs, w, g)
  {
    PushedMembers(p, vs, Slots(vs));
    hide Slots, Pushed, Skipped, Generate, Endpoints, Names.UpstreamName, SpecAt, NamespaceAt, NameAt, IsPlace, Marked, PushedFor;
    var us := Pushed(p, vs, Slots(vs));
    forall w | IsPlace(vs, w) && !Marked(vs, w)
      ensures exists g :: g in us && PushedFor(p, vs, w, g)
    {
      var x := SlotAt(vs, w);
      PushedSlot(p, vs, w, x);
      assert Generate(ForPlus(p), Names.UpstreamName(x.id), x.spec, Endpoints(vs, x)) in us;
    }
    forall g | g in us
      ensures exists w :: IsPlace(vs, w) && !Marked(vs, w) && PushedFor(p, vs, w, g)
    {
      var x :| x in Slots(vs) && !Skipped(vs, x) && g == Generate(ForPlus(p), Names.UpstreamName(x.id), x.spec, Endpoints(vs, x));
      var w := SlotPlace(vs, x);
      PushedSlot(p, vs, w, x);
    }
  }
}
