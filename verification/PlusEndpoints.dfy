/** Endpoint updates on NGINX Plus: the servers that are pushed through the API without a
    reload, against the servers in the file that a reload would load. */
module PlusEndpoints {
  import opened Text
  import Names = ResourceNames

  // ---- sorting addresses ----

  predicate Leq(a: string, b: string) {
    |a| == 0 || (|b| > 0 && (a[0] < b[0] || (a[0] == b[0] && Leq(a[1..], b[1..]))))
  }

  lemma {:induction false} LeqTotal(a: string, b: string)
    ensures Leq(a, b) || Leq(b, a)
  {
    if |a| > 0 && |b| > 0 && a[0] == b[0] {
      LeqTotal(a[1..], b[1..]);
    }
  }

  lemma {:induction false} LeqAntisymmetric(a: string, b: string)
    requires Leq(a, b) && Leq(b, a)
    ensures a == b
  {
    if |a| > 0 && |b| > 0 {
      LeqAntisymmetric(a[1..], b[1..]);
      assert a == [a[0]] + a[1..] && b == [b[0]] + b[1..];
    }
  }

  lemma {:induction false} LeqTransitive(a: string, b: string, c: string)
    requires Leq(a, b) && Leq(b, c)
    ensures Leq(a, c)
  {
    if |a| > 0 && a[0] == b[0] && b[0] == c[0] {
      LeqTransitive(a[1..], b[1..], c[1..]);
    }
  }

  /** It is the lexicographic order: a prefix, or smaller at the first difference. */
  lemma {:induction false} LeqExactly(a: string, b: string)
    ensures Leq(a, b) <==> a <= b || exists i :: 0 <= i < |a| && i < |b| && a[..i] == b[..i] && a[i] < b[i]
  {
    if |a| > 0 && |b| > 0 {
      if a[0] == b[0] {
        LeqExactly(a[1..], b[1..]);
        SmallerLater(a, b);
      } else if a[0] < b[0] {
        assert a[..0] == b[..0];
      } else {
        forall i | 0 < i < |a| && i < |b|
          ensures a[..i] != b[..i]
        {
          assert a[..i][0] == a[0] && b[..i][0] == b[0];
        }
      }
    }
  }

  lemma SmallerLater(a: string, b: string)
    requires |a| > 0 && |b| > 0 && a[0] == b[0]
    ensures a <= b <==> a[1..] <= b[1..]
    ensures (exists i :: 0 <= i < |a| && i < |b| && a[..i] == b[..i] && a[i] < b[i]) <==>
            exists i :: 0 <= i < |a[1..]| && i < |b[1..]| && a[1..][..i] == b[1..][..i] && a[1..][i] < b[1..][i]
  {
    var x, y := a[1..], b[1..];
    assert a == [a[0]] + x && b == [b[0]] + y;
    if i :| 0 <= i < |a| && i < |b| && a[..i] == b[..i] && a[i] < b[i] {
      assert x[..i - 1] == a[..i][1..] && y[..i - 1] == b[..i][1..];
      assert x[i - 1] < y[i - 1];
    }
    if i :| 0 <= i < |x| && i < |y| && x[..i] == y[..i] && x[i] < y[i] {
      assert a[..i + 1] == [a[0]] + x[..i] && b[..i + 1] == [b[0]] + y[..i];
      assert a[i + 1] < b[i + 1];
    }
  }

  predicate Ordered(s: seq<string>) { |s| > 1 ==> Leq(s[0], s[1]) && Ordered(s[1..]) }

  function Insert(x: string, s: seq<string>): seq<string> {
    if |s| == 0 || Leq(x, s[0]) then [x] + s else [s[0]] + Insert(x, s[1..])
  }

  function Sorted(s: seq<string>): seq<string> {
    if |s| == 0 then [] else Insert(s[|s| - 1], Sorted(s[..|s| - 1]))
  }

  lemma {:induction false} InsertOrdered(x: string, s: seq<string>)
    requires Ordered(s)
    ensures Ordered(Insert(x, s)) && multiset(Insert(x, s)) == multiset(s) + multiset{x}
    ensures |Insert(x, s)| == |s| + 1 && (Insert(x, s)[0] == x || (|s| > 0 && Insert(x, s)[0] == s[0]))
  {
    if |s| > 0 && !Leq(x, s[0]) {
      InsertOrdered(x, s[1..]);
      LeqTotal(x, s[0]);
      var t := Insert(x, s[1..]);
      assert ([s[0]] + t)[1..] == t;
      assert s == [s[0]] + s[1..];
    } else {
      assert ([x] + s)[1..] == s;
    }
  }

  lemma OrderedEmpty()
    ensures Ordered([])
  {
  }

  lemma {:induction false} SortedOrdered(s: seq<string>)
    ensures Ordered(Sorted(s)) && multiset(Sorted(s)) == multiset(s)
  {
    hide Leq, Insert, Ordered;
    if |s| == 0 {
      OrderedEmpty();
    } else {
      SortedOrdered(s[..|s| - 1]);
      InsertOrdered(s[|s| - 1], Sorted(s[..|s| - 1]));
      assert s == s[..|s| - 1] + [s[|s| - 1]];
    }
  }

  lemma {:induction false} FirstIsLeast(s: seq<string>, x: string)
    requires Ordered(s) && x in s
    ensures Leq(s[0], x)
  {
    if x == s[0] {
      LeqTotal(x, x);
    } else {
      assert x in s[1..];
      FirstIsLeast(s[1..], x);
      LeqTransitive(s[0], s[1], x);
    }
  }

  lemma TailMultiset(a: seq<string>)
    requires |a| > 0
    ensures a == [a[0]] + a[1..] && multiset(a[1..]) == multiset(a) - multiset{a[0]}
  {
    assert a == [a[0]] + a[1..];
  }

  /** There is one way to sort, so whatever the sort does with equal addresses, and in
      whatever order the endpoints come, the result is the same. */
  lemma {:induction false} OrderedUnique(a: seq<string>, b: seq<string>)
    requires Ordered(a) && Ordered(b) && multiset(a) == multiset(b)
    ensures a == b
  {
    if |a| == 0 {
      assert |multiset(b)| == 0;
    } else {
      assert Ordered(a[1..]) && Ordered(b[1..]);
      hide Leq, Ordered;
      assert |multiset(a)| == |multiset(b)|;
      assert a[0] in multiset(b) && b[0] in multiset(a);
      FirstIsLeast(a, b[0]);
      FirstIsLeast(b, a[0]);
      LeqAntisymmetric(a[0], b[0]);
      TailMultiset(a);
      TailMultiset(b);
      OrderedUnique(a[1..], b[1..]);
    }
  }

  /** The order of the endpoints makes no difference. */
  lemma SortedOfPermutation(a: seq<string>, b: seq<string>)
    requires multiset(a) == multiset(b)
    ensures Sorted(a) == Sorted(b)
  {
    SortedOrdered(a);
    SortedOrdered(b);
    OrderedUnique(Sorted(a), Sorted(b));
  }

  // ---- upstreams ----

  datatype UpstreamSpec = UpstreamSpec(
    name: string,
    service: string,
    subselector: string,
    port: nat,
    lbMethod: string,
    maxFails: Option<int>,
    failTimeout: string,
    maxConns: Option<int>,
    slowStart: string)

  datatype RouteEx = RouteEx(namespace: string, name: string, upstreams: seq<UpstreamSpec>)

  /** A VirtualServer with its routes and what the cluster says about its services. */
  datatype VirtualServerEx = VirtualServerEx(
    namespace: string,
    name: string,
    upstreams: seq<UpstreamSpec>,
    routes: seq<RouteEx>,
    endpoints: map<string, seq<string>>,
    externalNames: map<string, bool>)

  /** Whether this is NGINX Plus, the ConfigMap's defaults, and how a time is normalised. */
  datatype Params = Params(
    plus: bool, lbMethod: string, maxFails: int, failTimeout: string, maxConns: int, resolver: bool, time: string -> string)

  /** What an upstream without endpoints has in its file, except on NGINX Plus. */
  const SERVER_502 := "unix:/var/lib/nginx/nginx-502-server.sock"

  datatype ServerConfig = ServerConfig(maxFails: int, failTimeout: string, maxConns: int, slowStart: string)

  datatype Upstream = Upstream(name: string, servers: seq<string>, config: ServerConfig)

  const NO_SLOW_START: set<string> := {
    "random", "ip_hash", "random two", "random two least_conn",
    "random two least_time=header", "random two least_time=last_byte"}

  function LbMethod(method_: string, default_: string): string {
    if method_ == "" then default_ else if method_ == "round_robin" then "" else method_
  }

  function SlowStart(p: Params, u: UpstreamSpec, lb: string): string {
    if !p.plus || u.slowStart == "" || lb in NO_SLOW_START || StartsWith(lb, "hash") then "" else p.time(u.slowStart)
  }

  function OrElse(n: Option<int>, default_: int): int { if n.Some? then n.value else default_ }

  function Generate(p: Params, name: string, u: UpstreamSpec, endpoints: seq<string>): Upstream {
    Upstream(name, Sorted(endpoints), ServerConfig(
      OrElse(u.maxFails, p.maxFails),
      if u.failTimeout == "" then p.failTimeout else p.time(u.failTimeout),
      OrElse(u.maxConns, p.maxConns),
      SlowStart(p, u, LbMethod(u.lbMethod, p.lbMethod))))
  }

  /** The number of slashes decides whether a reference names a namespace. */
  function Slash(s: string): nat { if |s| == 0 || s[0] == '/' then 0 else 1 + Slash(s[1..]) }

  function ServiceReference(ref: string, ns: string): (string, string) {
    var i := Slash(ref);
    if i < |ref| && Lacks(ref[i + 1..], '/') then (ref[..i], ref[i + 1..]) else (ns, ref)
  }

  function EndpointsKey(ns: string, service: string, subselector: string, port: nat): string {
    ns + "/" + service + (if subselector == "" then "" else "_" + subselector) + ":" + Dec(port)
  }

  function ExternalKey(ns: string, service: string): string { ns + "/" + service }

  /** An upstream with the namespace and the prefix of the resource that defines it. */
  datatype Slot = Slot(namespace: string, id: Names.Upstream, spec: UpstreamSpec)

  function SpecSlots(vs: VirtualServerEx): seq<Slot> {
    seq(|vs.upstreams|, i requires 0 <= i < |vs.upstreams| =>
      Slot(vs.namespace, Names.OfVirtualServer(vs.namespace, vs.name, vs.upstreams[i].name), vs.upstreams[i]))
  }

  function RouteSlots(vs: VirtualServerEx, r: RouteEx): seq<Slot> {
    seq(|r.upstreams|, i requires 0 <= i < |r.upstreams| =>
      Slot(r.namespace, Names.OfRoute(vs.namespace, vs.name, r.namespace, r.name, r.upstreams[i].name), r.upstreams[i]))
  }

  function AllRouteSlots(vs: VirtualServerEx, routes: seq<RouteEx>): seq<Slot> {
    if |routes| == 0 then [] else AllRouteSlots(vs, routes[..|routes| - 1]) + RouteSlots(vs, routes[|routes| - 1])
  }

  function Slots(vs: VirtualServerEx): seq<Slot> { SpecSlots(vs) + AllRouteSlots(vs, vs.routes) }

  function Endpoints(vs: VirtualServerEx, x: Slot): seq<string> {
    var (ns, service) := ServiceReference(x.spec.service, x.namespace);
    var key := EndpointsKey(ns, service, x.spec.subselector, x.spec.port);
    if key in vs.endpoints then vs.endpoints[key] else []
  }

  predicate External(vs: VirtualServerEx, x: Slot) { ExternalKey(x.namespace, x.spec.service) in vs.externalNames }

  /** The upstream as the file has it. */
  function InFile(p: Params, vs: VirtualServerEx, x: Slot): Upstream {
    var found := Endpoints(vs, x);
    var endpoints := if !p.plus && |found| == 0 then [SERVER_502] else if External(vs, x) && !p.resolver then [] else found;
    Generate(p, Names.UpstreamName(x.id), x.spec, endpoints)
  }

  function FileUpstreams(p: Params, vs: VirtualServerEx, xs: seq<Slot>): seq<Upstream> {
    if |xs| == 0 then [] else FileUpstreams(p, vs, xs[..|xs| - 1]) + [InFile(p, vs, xs[|xs| - 1])]
  }

  /** The upstream as it is pushed; a service that is marked as an ExternalName is skipped. */
  predicate Skipped(vs: VirtualServerEx, x: Slot) {
    var key := ExternalKey(x.namespace, x.spec.service);
    key in vs.externalNames && vs.externalNames[key]
  }

  /** What is pushed is always generated as for NGINX Plus. */
  function ForPlus(p: Params): Params { p.(plus := true) }

  function Pushed(p: Params, vs: VirtualServerEx, xs: seq<Slot>): seq<Upstream> {
    if |xs| == 0 then []
    else
      var x := xs[|xs| - 1];
      Pushed(p, vs, xs[..|xs| - 1]) +
      if Skipped(vs, x) then [] else [Generate(ForPlus(p), Names.UpstreamName(x.id), x.spec, Endpoints(vs, x))]
  }

  method CreateUpstreamsForPlus(p: Params, vs: VirtualServerEx) returns (us: seq<Upstream>)
    ensures us == Pushed(p, vs, Slots(vs))
  {
    hide Pushed, SpecSlots, RouteSlots;
    NothingPushed(p, vs);
    ghost var done := SpecSlots(vs);
    us := PushSlots(p, vs, SpecSlots(vs), [], []);
    assert [] + done == done;
    var i := 0;
    assert done + AllRouteSlots(vs, vs.routes[..0]) == done;
    while i < |vs.routes|
      invariant 0 <= i <= |vs.routes|
      invariant us == Pushed(p, vs, done + AllRouteSlots(vs, vs.routes[..i]))
    {
      var r := vs.routes[i];
      ghost var before, more := done + AllRouteSlots(vs, vs.routes[..i]), RouteSlots(vs, r);
      us := PushSlots(p, vs, RouteSlots(vs, r), us, before);
      assert vs.routes[..i + 1][..i] == vs.routes[..i];
      assert done + (AllRouteSlots(vs, vs.routes[..i]) + more) == before + more;
      i := i + 1;
    }
    assert vs.routes[..i] == vs.routes;
  }

  lemma NothingPushed(p: Params, vs: VirtualServerEx)
    ensures Pushed(p, vs, []) == []
  {
  }

  method PushSlots(p: Params, vs: VirtualServerEx, xs: seq<Slot>, us: seq<Upstream>, ghost before: seq<Slot>) returns (us': seq<Upstream>)
    requires us == Pushed(p, vs, before)
    ensures us' == Pushed(p, vs, before + xs)
  {
    hide *;
    us' := us;
    assert before + xs[..0] == before;
    var i := 0;
    while i < |xs|
      invariant 0 <= i <= |xs|
      invariant us' == Pushed(p, vs, before + xs[..i])
    {
      var x := xs[i];
      PushedAppend(p, vs, before + xs[..i], x);
      assert before + xs[..i + 1] == before + xs[..i] + [x];
      if !Skipped(vs, x) {
        us' := us' + [Generate(ForPlus(p), Names.UpstreamName(x.id), x.spec, Endpoints(vs, x))];
      }
      i := i + 1;
    }
    assert xs[..i] == xs;
  }

  lemma PushedAppend(p: Params, vs: VirtualServerEx, xs: seq<Slot>, x: Slot)
    ensures Pushed(p, vs, xs + [x]) ==
            if Skipped(vs, x) then Pushed(p, vs, xs) else Pushed(p, vs, xs) + [Generate(ForPlus(p), Names.UpstreamName(x.id), x.spec, Endpoints(vs, x))]
  {
    hide Skipped, Endpoints, Generate, Names.UpstreamName;
    assert (xs + [x])[..|xs|] == xs;
  }

  // ---- agreement ----

  /** The two readings of the ExternalName table, one by presence and one by value. */
  predicate OnlyTrueMarks(vs: VirtualServerEx) { forall k :: k in vs.externalNames ==> vs.externalNames[k] }

  /** The upstreams whose services are not ExternalName services. */
  function Internal(vs: VirtualServerEx, xs: seq<Slot>): seq<Slot> {
    if |xs| == 0 then []
    else Internal(vs, xs[..|xs| - 1]) + if External(vs, xs[|xs| - 1]) then [] else [xs[|xs| - 1]]
  }

  lemma {:induction false} FileCount(p: Params, vs: VirtualServerEx, xs: seq<Slot>)
    ensures |FileUpstreams(p, vs, xs)| == |xs|
    ensures forall i :: 0 <= i < |xs| ==> FileUpstreams(p, vs, xs)[i] == InFile(p, vs, xs[i])
  {
    hide InFile;
    if |xs| > 0 {
      FileCount(p, vs, xs[..|xs| - 1]);
    }
  }

  lemma FileAppend(p: Params, vs: VirtualServerEx, xs: seq<Slot>, x: Slot)
    ensures FileUpstreams(p, vs, xs + [x]) == FileUpstreams(p, vs, xs) + [InFile(p, vs, x)]
  {
    hide InFile;
    assert (xs + [x])[..|xs|] == xs;
  }

  lemma InternalAppend(vs: VirtualServerEx, xs: seq<Slot>, x: Slot)
    ensures Internal(vs, xs + [x]) == if External(vs, x) then Internal(vs, xs) else Internal(vs, xs) + [x]
  {
    hide External;
    assert (xs + [x])[..|xs|] == xs;
  }

  lemma NothingFiled(p: Params, vs: VirtualServerEx)
    ensures Internal(vs, []) == [] && FileUpstreams(p, vs, []) == []
  {
  }

  lemma SameUpstream(p: Params, vs: VirtualServerEx, x: Slot)
    requires OnlyTrueMarks(vs)
    ensures External(vs, x) <==> Skipped(vs, x)
    ensures p.plus && !External(vs, x) ==> InFile(p, vs, x) == Generate(ForPlus(p), Names.UpstreamName(x.id), x.spec, Endpoints(vs, x))
  {
    hide Generate, Endpoints, Names.UpstreamName;
  }

  /** On NGINX Plus, what is pushed is what the file has, without the ExternalName services: names,
      sorted servers and server parameters, for the spec and for every route. */
  lemma {:induction false} PushedIsFile(p: Params, vs: VirtualServerEx, xs: seq<Slot>)
    requires p.plus && OnlyTrueMarks(vs)
    ensures Pushed(p, vs, xs) == FileUpstreams(p, vs, Internal(vs, xs))
  {
    hide *;
    if |xs| == 0 {
      NothingPushed(p, vs);
      NothingFiled(p, vs);
      assert xs == [];
    } else {
      var init, x := xs[..|xs| - 1], xs[|xs| - 1];
      PushedIsFile(p, vs, init);
      SameUpstream(p, vs, x);
      assert xs == init + [x];
      PushedAppend(p, vs, init, x);
      InternalAppend(vs, init, x);
      FileAppend(p, vs, Internal(vs, init), x);
    }
  }

  // ---- the running servers ----

  datatype Server = Server(address: string, config: ServerConfig)

  /** The servers that NGINX runs for an upstream that it has read from a file. */
  function Live(u: Upstream): seq<Server> {
    seq(|u.servers|, i requires 0 <= i < |u.servers| => Server(u.servers[i], u.config))
  }

  const NO_CONFIG := ServerConfig(0, "", 0, "")

  /** Without servers nothing but an empty configuration is pushed. */
  function PushConfig(u: Upstream): ServerConfig { if |u.servers| == 0 then NO_CONFIG else u.config }

  function LivePushed(u: Upstream): seq<Server> {
    seq(|u.servers|, i requires 0 <= i < |u.servers| => Server(u.servers[i], PushConfig(u)))
  }

  datatype Key = Key(namespace: string, name: string)

  function KeyOf(vs: VirtualServerEx): Key { Key(vs.namespace, vs.name) }

  /** Names as Kubernetes allows them, and no upstream defined twice. */
  ghost predicate WellNamed(vs: VirtualServerEx) {
    && (forall x :: x in Slots(vs) ==> Names.PlainUpstream(x.id) && x.id.vsNamespace == vs.namespace && x.id.vsName == vs.name)
    && DistinctIds(Slots(vs))
  }

  function FileOf(p: Params, vs: VirtualServerEx): seq<Upstream> { FileUpstreams(p, vs, Slots(vs)) }

  /** A name belongs to the VirtualServer that generated it. */
  ghost predicate BelongsTo(name: string, k: Key) {
    exists u: Names.Upstream :: Names.PlainUpstream(u) && u.vsNamespace == k.namespace && u.vsName == k.name && Names.UpstreamName(u) == name
  }

  lemma OneOwner(name: string, j: Key, k: Key)
    requires BelongsTo(name, j) && BelongsTo(name, k)
    ensures j == k
  {
    hide Names.UpstreamName, Names.PlainUpstream;
    var u: Names.Upstream :| Names.PlainUpstream(u) && u.vsNamespace == j.namespace && u.vsName == j.name && Names.UpstreamName(u) == name;
    var v: Names.Upstream :| Names.PlainUpstream(v) && v.vsNamespace == k.namespace && v.vsName == k.name && Names.UpstreamName(v) == name;
    Names.UpstreamNamesInjective(u, v);
  }

  ghost predicate DistinctNames(us: seq<Upstream>) {
    forall i, j :: 0 <= i < j < |us| ==> us[i].name != us[j].name
  }

  lemma FileNames(p: Params, vs: VirtualServerEx)
    requires WellNamed(vs)
    ensures |FileOf(p, vs)| == |Slots(vs)|
    ensures forall i :: 0 <= i < |Slots(vs)| ==> FileOf(p, vs)[i] == InFile(p, vs, Slots(vs)[i])
    ensures DistinctNames(FileOf(p, vs)) && forall u :: u in FileOf(p, vs) ==> BelongsTo(u.name, KeyOf(vs))
  {
    var xs, us := Slots(vs), FileOf(p, vs);
    FileCount(p, vs, xs);
    forall x
      ensures InFile(p, vs, x).name == Names.UpstreamName(x.id)
    {
    }
    NamesDiffer(p, vs, xs);
    hide Slots, FileOf, InFile, Names.UpstreamName, Names.PlainUpstream, DistinctNames;
    forall u | u in us
      ensures BelongsTo(u.name, KeyOf(vs))
    {
      var i :| 0 <= i < |us| && us[i] == u;
      assert xs[i] in xs;
      assert Names.UpstreamName(xs[i].id) == u.name;
    }
  }

  /** Every file holds upstreams of its own VirtualServer, each once. */
  ghost predicate WellFiled(files: map<Key, seq<Upstream>>) {
    forall k :: k in files ==> DistinctNames(files[k]) && forall u :: u in files[k] ==> BelongsTo(u.name, k)
  }

  lemma Apart(files: map<Key, seq<Upstream>>, k: Key, v: Upstream)
    requires WellFiled(files) && k in files && v in files[k]
    ensures forall l, u :: l in files && l != k && u in files[l] ==> u.name != v.name
  {
    hide BelongsTo;
    forall l, u | l in files && l != k && u in files[l]
      ensures u.name != v.name
    {
      if u.name == v.name {
        OneOwner(u.name, l, k);
      }
    }
  }

  /** What runs for these upstreams is what the file says. */
  ghost predicate Agree(running: map<string, seq<Server>>, us: seq<Upstream>) {
    forall u :: u in us ==> u.name in running && running[u.name] == Live(u)
  }

  /** The upstreams of a VirtualServer that the API looks after, as the file has them. */
  function ManagedOf(p: Params, vs: VirtualServerEx): seq<Upstream> { FileUpstreams(p, vs, Internal(vs, Slots(vs))) }

  class Plus {
    var files: map<Key, seq<Upstream>>
    var running: map<string, seq<Server>>
    var reloadsEnabled: bool
    const params: Params

    constructor (params: Params)
      ensures files == map[] && running == map[] && !reloadsEnabled && this.params == params
    {
      files, running, reloadsEnabled := map[], map[], false;
      this.params := params;
    }

    /** Sets the running servers of each upstream in turn, up to the first failure. */
    method PushAll(us: seq<Upstream>, pushOk: string -> bool) returns (ok: bool)
      requires DistinctNames(us)
      modifies this`running
      ensures !reloadsEnabled ==> ok && running == old(running)
      ensures reloadsEnabled && ok ==> Agree(running, us)
      ensures Untouched(old(running), running, us)
    {
      var i := 0;
      while i < |us|
        invariant 0 <= i <= |us|
        invariant !reloadsEnabled ==> running == old(running)
        invariant reloadsEnabled ==> forall j :: 0 <= j < i ==> us[j].name in running && running[us[j].name] == Live(us[j])
        invariant Untouched(old(running), running, us)
      {
        hide Live, LivePushed;
        if reloadsEnabled {
          if !pushOk(us[i].name) {
            return false;
          }
          SamePush(us[i]);
          assert us[i] in us;
          running := running[us[i].name := LivePushed(us[i])];
        }
        i := i + 1;
      }
      ok := true;
    }

    /** Running equals disk. */
    method Reload()
      requires WellFiled(files)
      modifies this`running
      ensures forall k :: k in files ==> Agree(running, files[k])
    {
      running := map[];
      var left := files.Keys;
      while left != {}
        invariant left <= files.Keys
        invariant forall k :: k in files && k !in left ==> Agree(running, files[k])
        decreases |left|
      {
        hide Agree;
        var k :| k in left;
        LoadFile(k);
        left := left - {k};
      }
    }

    method LoadFile(k: Key)
      requires WellFiled(files) && k in files
      modifies this`running
      ensures Agree(running, files[k])
      ensures forall l :: l in files && l != k && Agree(old(running), files[l]) ==> Agree(running, files[l])
    {
      var us := files[k];
      var i := 0;
      while i < |us|
        invariant 0 <= i <= |us|
        invariant forall j :: 0 <= j < i ==> us[j].name in running && running[us[j].name] == Live(us[j])
        invariant forall l :: l in files && l != k && Agree(old(running), files[l]) ==> Agree(running, files[l])
      {
        assert us[i] in us;
        Apart(files, k, us[i]);
        hide Live, BelongsTo;
        running := running[us[i].name := Live(us[i])];
        i := i + 1;
      }
    }

    /** Writes the file of one VirtualServer and pushes its servers. */
    method UpdateOne(vs: VirtualServerEx, writeOk: bool, pushOk: string -> bool) returns (written: bool, pushed: bool)
      requires WellFiled(files) && WellNamed(vs) && OnlyTrueMarks(vs)
      modifies this`files, this`running
      ensures WellFiled(files) && written == writeOk
      ensures files == if written then old(files)[KeyOf(vs) := FileOf(params, vs)] else old(files)
      ensures written && params.plus && reloadsEnabled && pushed ==> Agree(running, ManagedOf(params, vs))
      ensures Untouched(old(running), running, ManagedOf(params, vs))
    {
      hide WellFiled, FileOf, ManagedOf, Agree, WellNamed, OnlyTrueMarks;
      written, pushed := writeOk, true;
      if writeOk {
        NewFile(params, files, vs);
        files := files[KeyOf(vs) := FileOf(params, vs)];
        if params.plus {
          var us := CreateUpstreamsForPlus(params, vs);
          ManagedIsPushed(params, vs);
          pushed := PushAll(us, pushOk);
        }
      }
    }

    /** Endpoint updates: reloads when there is no API or a push failed. */
    method UpdateEndpoints(vss: seq<VirtualServerEx>, writeOk: Key -> bool, pushOk: string -> bool, reloadOk: bool) returns (ok: bool)
      requires WellFiled(files) && forall i :: 0 <= i < |vss| ==> WellNamed(vss[i]) && OnlyTrueMarks(vss[i])
      requires forall i, j :: 0 <= i < j < |vss| ==> KeyOf(vss[i]) != KeyOf(vss[j])
      modifies this`files, this`running
      ensures WellFiled(files)
      ensures ok ==> forall i :: 0 <= i < |vss| ==> KeyOf(vss[i]) in files && files[KeyOf(vss[i])] == FileOf(params, vss[i])
      ensures ok && reloadsEnabled ==> forall i :: 0 <= i < |vss| ==> Agree(running, ManagedOf(params, vss[i]))
      ensures ok && reloadsEnabled && !params.plus ==> forall k :: k in files ==> Agree(running, files[k])
    {
      hide WellFiled, FileOf, ManagedOf, Agree, WellNamed, OnlyTrueMarks, Untouched;
      var reloadPlus, i := false, 0;
      while i < |vss|
        invariant 0 <= i <= |vss|
        invariant WellFiled(files)
        invariant forall j :: 0 <= j < i ==> KeyOf(vss[j]) in files && files[KeyOf(vss[j])] == FileOf(params, vss[j])
        invariant params.plus && reloadsEnabled && !reloadPlus ==> forall j :: 0 <= j < i ==> Agree(running, ManagedOf(params, vss[j]))
      {
        ghost var before := running;
        var written, pushed := UpdateOne(vss[i], writeOk(KeyOf(vss[i])), pushOk);
        if !written {
          return false;
        }
        forall j | 0 <= j < i
          ensures Agree(before, ManagedOf(params, vss[j])) ==> Agree(running, ManagedOf(params, vss[j]))
        {
          OthersUntouched(params, vss[j], vss[i], before, running);
        }
        reloadPlus := reloadPlus || !pushed;
        i := i + 1;
      }
      if params.plus && !reloadPlus {
        return true;
      }
      if reloadsEnabled {
        if !reloadOk {
          return false;
        }
        Reload();
        forall j | 0 <= j < |vss|
          ensures Agree(running, ManagedOf(params, vss[j]))
        {
          assert KeyOf(vss[j]) in files;
          ManagedInFile(params, vss[j], running);
        }
      }
      ok := true;
    }
  }

  /** Only these upstreams may have changed. */
  ghost predicate Untouched(before: map<string, seq<Server>>, after: map<string, seq<Server>>, us: seq<Upstream>) {
    forall n :: n in before && (forall u :: u in us ==> u.name != n) ==> n in after && after[n] == before[n]
  }

  lemma NewFile(p: Params, files: map<Key, seq<Upstream>>, vs: VirtualServerEx)
    requires WellFiled(files) && WellNamed(vs)
    ensures WellFiled(files[KeyOf(vs) := FileOf(p, vs)])
  {
    FileNames(p, vs);
    hide WellNamed, FileOf, BelongsTo, DistinctNames;
  }

  lemma {:induction false} InternalSubset(vs: VirtualServerEx, xs: seq<Slot>)
    ensures forall x :: x in Internal(vs, xs) ==> x in xs
  {
    hide External;
    if |xs| > 0 {
      InternalSubset(vs, xs[..|xs| - 1]);
    }
  }

  predicate DistinctIds(xs: seq<Slot>) { forall i, j :: 0 <= i < j < |xs| ==> xs[i].id != xs[j].id }

  lemma {:induction false} InternalDistinct(vs: VirtualServerEx, xs: seq<Slot>)
    requires DistinctIds(xs)
    ensures DistinctIds(Internal(vs, xs))
  {
    hide External;
    if |xs| > 0 {
      var init, x := xs[..|xs| - 1], xs[|xs| - 1];
      InternalDistinct(vs, init);
      InternalSubset(vs, init);
      var ys := Internal(vs, init);
      forall i | 0 <= i < |ys|
        ensures ys[i].id != x.id
      {
        assert ys[i] in ys;
        var j :| 0 <= j < |init| && init[j] == ys[i];
        assert xs[j] == ys[i];
      }
    }
  }

  lemma NamesDiffer(p: Params, vs: VirtualServerEx, xs: seq<Slot>)
    requires DistinctIds(xs) && forall x :: x in xs ==> Names.PlainUpstream(x.id)
    ensures DistinctNames(FileUpstreams(p, vs, xs))
  {
    FileCount(p, vs, xs);
    var us := FileUpstreams(p, vs, xs);
    forall x
      ensures InFile(p, vs, x).name == Names.UpstreamName(x.id)
    {
    }
    hide FileUpstreams, InFile, Names.UpstreamName, Names.PlainUpstream;
    forall i, j | 0 <= i < j < |us|
      ensures us[i].name != us[j].name
    {
      assert xs[i] in xs && xs[j] in xs;
      if us[i].name == us[j].name {
        Names.UpstreamNamesInjective(xs[i].id, xs[j].id);
      }
    }
  }

  lemma ManagedIsPushed(p: Params, vs: VirtualServerEx)
    requires p.plus && WellNamed(vs) && OnlyTrueMarks(vs)
    ensures Pushed(p, vs, Slots(vs)) == ManagedOf(p, vs) && DistinctNames(ManagedOf(p, vs))
  {
    PushedIsFile(p, vs, Slots(vs));
    InternalDistinct(vs, Slots(vs));
    InternalSubset(vs, Slots(vs));
    hide Slots, Internal, FileUpstreams, Names.PlainUpstream, DistinctNames;
    NamesDiffer(p, vs, Internal(vs, Slots(vs)));
  }

  /** The managed upstreams are upstreams of the file, as the file has them. */
  lemma ManagedSubset(p: Params, vs: VirtualServerEx)
    ensures forall u :: u in ManagedOf(p, vs) ==> u in FileOf(p, vs)
  {
    var xs := Slots(vs);
    var ys := Internal(vs, xs);
    InternalSubset(vs, xs);
    FileCount(p, vs, xs);
    FileCount(p, vs, ys);
    hide InFile, Internal, FileUpstreams, Slots;
    forall u | u in FileUpstreams(p, vs, ys)
      ensures u in FileUpstreams(p, vs, xs)
    {
      var i :| 0 <= i < |ys| && FileUpstreams(p, vs, ys)[i] == u;
      assert ys[i] in ys;
      var j :| 0 <= j < |xs| && xs[j] == ys[i];
      assert FileUpstreams(p, vs, xs)[j] == u;
    }
  }

  lemma ManagedInFile(p: Params, vs: VirtualServerEx, running: map<string, seq<Server>>)
    requires Agree(running, FileOf(p, vs))
    ensures Agree(running, ManagedOf(p, vs))
  {
    ManagedSubset(p, vs);
    hide FileOf, ManagedOf, Live;
  }

  /** Pushing one VirtualServer's servers leaves those of another alone. */
  lemma OthersUntouched(p: Params, other: VirtualServerEx, vs: VirtualServerEx, before: map<string, seq<Server>>, after: map<string, seq<Server>>)
    requires WellNamed(other) && WellNamed(vs) && KeyOf(other) != KeyOf(vs)
    requires Untouched(before, after, ManagedOf(p, vs))
    ensures Agree(before, ManagedOf(p, other)) ==> Agree(after, ManagedOf(p, other))
  {
    ManagedSubset(p, other);
    ManagedSubset(p, vs);
    FileNames(p, other);
    FileNames(p, vs);
    hide WellNamed, FileOf, ManagedOf, BelongsTo, Live, DistinctNames, InFile, Slots;
    forall u, v | u in ManagedOf(p, other) && v in ManagedOf(p, vs)
      ensures u.name != v.name
    {
      if u.name == v.name {
        OneOwner(u.name, KeyOf(other), KeyOf(vs));
      }
    }
  }

  lemma SamePush(u: Upstream)
    ensures LivePushed(u) == Live(u)
  {
    if |u.servers| == 0 {
      assert LivePushed(u) == [] && Live(u) == [];
    } else {
      assert PushConfig(u) == u.config;
    }
  }
}
