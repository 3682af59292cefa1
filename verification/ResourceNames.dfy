/** The names that tell the upstreams and the files of different resources apart. */
module ResourceNames {
  import opened Text

  /** Host-name syntax as in section 2.1 of RFC 1123: in particular no underscore and no
      slash. */
  predicate Plain(s: string) { Lacks(s, '_') && Lacks(s, '/') }

  /** An upstream of a VirtualServer or of one of its VirtualServerRoutes, or one made for an
      external-auth policy that either of them names. */
  datatype Upstream =
    | OfVirtualServer(vsNamespace: string, vsName: string, name: string)
    | OfRoute(vsNamespace: string, vsName: string, routeNamespace: string, routeName: string, name: string)
    | OfExternalAuth(vsNamespace: string, vsName: string, policyNamespace: string, policyName: string)
    | OfRouteAuth(vsNamespace: string, vsName: string, routeNamespace: string, routeName: string, policyNamespace: string, policyName: string)

  predicate PlainUpstream(u: Upstream) {
    && Plain(u.vsNamespace) && Plain(u.vsName)
    && match u
       case OfVirtualServer(_, _, name) => Plain(name)
       case OfRoute(_, _, ns, route, name) => Plain(ns) && Plain(route) && Plain(name)
       case OfExternalAuth(_, _, ns, name) => Plain(ns) && Plain(name)
       case OfRouteAuth(_, _, ns, route, polNs, pol) => Plain(ns) && Plain(route) && Plain(polNs) && Plain(pol)
  }

  function VirtualServerPrefix(ns: string, name: string): string { "vs_" + ns + "_" + name }

  function RoutePrefix(ns: string, name: string, routeNs: string, route: string): string {
    "vs_" + ns + "_" + name + "_vsr_" + routeNs + "_" + route
  }

  /** What the external-auth policy calls its upstream before the prefix is added. */
  function ExternalAuthName(ns: string, name: string): string { "vs_exauth_" + ns + "_" + name }

  function UpstreamName(u: Upstream): string {
    match u
    case OfVirtualServer(ns, vs, name) => VirtualServerPrefix(ns, vs) + "_" + name
    case OfRoute(ns, vs, routeNs, route, name) => RoutePrefix(ns, vs, routeNs, route) + "_" + name
    case OfExternalAuth(ns, vs, polNs, pol) => VirtualServerPrefix(ns, vs) + "_" + ExternalAuthName(polNs, pol)
    case OfRouteAuth(ns, vs, routeNs, route, polNs, pol) => RoutePrefix(ns, vs, routeNs, route) + "_" + ExternalAuthName(polNs, pol)
  }

  function Tokens(u: Upstream): seq<string> {
    match u
    case OfVirtualServer(ns, vs, name) => ["vs", ns, vs, name]
    case OfRoute(ns, vs, routeNs, route, name) => ["vs", ns, vs, "vsr", routeNs, route, name]
    case OfExternalAuth(ns, vs, polNs, pol) => ["vs", ns, vs, "vs", "exauth", polNs, pol]
    case OfRouteAuth(ns, vs, routeNs, route, polNs, pol) => ["vs", ns, vs, "vsr", routeNs, route, "vs", "exauth", polNs, pol]
  }

  lemma JoinStep(a: string, rest: seq<string>)
    requires |rest| > 0
    ensures Join([a] + rest) == a + "_" + Join(rest)
  {
    assert ([a] + rest)[1..] == rest;
  }

  lemma JoinTwo(a: string, b: string)
    ensures Join([a, b]) == a + "_" + b
  {
    JoinStep(a, [b]);
    assert [a] + [b] == [a, b] && Join([b]) == b;
  }

  lemma JoinFour(a: string, b: string, c: string, d: string)
    ensures Join([a, b, c, d]) == a + "_" + b + "_" + c + "_" + d
  {
    JoinTwo(c, d);
    JoinStep(b, [c, d]);
    JoinStep(a, [b, c, d]);
    assert [b] + [c, d] == [b, c, d] && [a] + [b, c, d] == [a, b, c, d];
    hide Join;
    assert a + "_" + (b + "_" + (c + "_" + d)) == a + "_" + b + "_" + c + "_" + d;
  }

  lemma JoinSeven(a: string, b: string, c: string, d: string, e: string, f: string, g: string)
    ensures Join([a, b, c, d, e, f, g]) == a + "_" + b + "_" + c + "_" + (d + "_" + e + "_" + f + "_" + g)
  {
    JoinFour(d, e, f, g);
    var rest := [d, e, f, g];
    JoinStep(c, rest);
    JoinStep(b, [c] + rest);
    JoinStep(a, [b] + ([c] + rest));
    assert [a] + ([b] + ([c] + rest)) == [a, b, c, d, e, f, g];
    hide Join;
    var r := d + "_" + e + "_" + f + "_" + g;
    assert a + "_" + (b + "_" + (c + "_" + r)) == a + "_" + b + "_" + c + "_" + r;
  }

  lemma JoinTen(a: string, b: string, c: string, d: string, e: string, f: string, g: string, h: string, i: string, j: string)
    ensures Join([a, b, c, d, e, f, g, h, i, j]) ==
            a + "_" + b + "_" + c + "_" + (d + "_" + e + "_" + f + "_" + (g + "_" + h + "_" + i + "_" + j))
  {
    JoinSeven(d, e, f, g, h, i, j);
    var rest := [d, e, f, g, h, i, j];
    JoinStep(c, rest);
    JoinStep(b, [c] + rest);
    JoinStep(a, [b] + ([c] + rest));
    assert [a] + ([b] + ([c] + rest)) == [a, b, c, d, e, f, g, h, i, j];
    hide Join;
    var r := d + "_" + e + "_" + f + "_" + (g + "_" + h + "_" + i + "_" + j);
    assert a + "_" + (b + "_" + (c + "_" + r)) == a + "_" + b + "_" + c + "_" + r;
  }

  lemma RegroupSpec(ns: string, vs: string, rest: string)
    ensures "vs_" + ns + "_" + vs + "_" + rest == "vs" + "_" + ns + "_" + vs + "_" + rest
  {
    assert "vs_" == "vs" + "_";
  }

  lemma RegroupRoute(a: string, ns: string, route: string, name: string)
    ensures a + "_vsr_" + ns + "_" + route + "_" + name == a + "_" + ("vsr" + "_" + ns + "_" + route + "_" + name)
  {
    assert "_vsr_" == "_" + "vsr" + "_";
  }

  lemma RegroupAuth(ns: string, name: string)
    ensures "vs_exauth_" + ns + "_" + name == "vs" + "_" + "exauth" + "_" + ns + "_" + name
  {
    assert "vs_exauth_" == "vs" + "_" + "exauth" + "_";
  }

  lemma NameIsJoin(u: Upstream)
    ensures UpstreamName(u) == Join(Tokens(u))
  {
    hide Join;
    match u
    case OfVirtualServer(ns, vs, name) =>
      JoinFour("vs", ns, vs, name);
      RegroupSpec(ns, vs, name);
    case OfRoute(ns, vs, routeNs, route, name) =>
      JoinSeven("vs", ns, vs, "vsr", routeNs, route, name);
      RegroupRoute("vs_" + ns + "_" + vs, routeNs, route, name);
      RegroupSpec(ns, vs, "vsr" + "_" + routeNs + "_" + route + "_" + name);
    case OfExternalAuth(ns, vs, polNs, pol) =>
      JoinSeven("vs", ns, vs, "vs", "exauth", polNs, pol);
      RegroupAuth(polNs, pol);
      RegroupSpec(ns, vs, ExternalAuthName(polNs, pol));
    case OfRouteAuth(ns, vs, routeNs, route, polNs, pol) =>
      JoinTen("vs", ns, vs, "vsr", routeNs, route, "vs", "exauth", polNs, pol);
      RegroupAuth(polNs, pol);
      RegroupRoute("vs_" + ns + "_" + vs, routeNs, route, ExternalAuthName(polNs, pol));
      RegroupSpec(ns, vs, "vsr" + "_" + routeNs + "_" + route + "_" + ExternalAuthName(polNs, pol));
  }

  lemma TokensArePlain(u: Upstream)
    requires PlainUpstream(u)
    ensures NoUnderscore(Tokens(u))
  {
  }

  /** No two upstreams, of whatever kind and of whatever resources, have the same name. */
  lemma UpstreamNamesInjective(a: Upstream, b: Upstream)
    requires PlainUpstream(a) && PlainUpstream(b) && UpstreamName(a) == UpstreamName(b)
    ensures a == b
  {
    NameIsJoin(a);
    NameIsJoin(b);
    TokensArePlain(a);
    TokensArePlain(b);
    assert |Tokens(a)| > 0 && |Tokens(b)| > 0;
    hide Tokens, PlainUpstream;
    hide Join, UpstreamName;
    JoinInjective(Tokens(a), Tokens(b));
    SameTokens(a, b);
  }

  lemma SameTokens(a: Upstream, b: Upstream)
    requires Tokens(a) == Tokens(b)
    ensures a == b
  {
    var s, t := Tokens(a), Tokens(b);
    assert s[1] == t[1] && s[2] == t[2] && s[3] == t[3];
    if |s| >= 7 {
      assert s[4] == t[4] && s[5] == t[5] && s[6] == t[6];
      assert |s[3]| == |t[3]|;
    }
    if |s| == 10 {
      assert s[8] == t[8] && s[9] == t[9];
    }
  }

  /** The name that endpoints of external-auth services are pushed under is never the name
      of an upstream: it lacks the prefix that the generated upstream has. */
  lemma ExternalAuthPushMissesUpstream(ns: string, name: string, u: Upstream)
    requires Plain(ns) && Plain(name) && PlainUpstream(u)
    ensures !u.OfVirtualServer? ==> ExternalAuthName(ns, name) != UpstreamName(u)
    ensures u.OfVirtualServer? ==> (ExternalAuthName(ns, name) == UpstreamName(u) <==> u == OfVirtualServer("exauth", ns, name))
  {
    var tokens := ["vs", "exauth", ns, name];
    JoinFour("vs", "exauth", ns, name);
    RegroupAuth(ns, name);
    assert ExternalAuthName(ns, name) == Join(tokens) && NoUnderscore(tokens);
    NameIsJoin(u);
    assert NoUnderscore(Tokens(u));
    hide Join, UpstreamName, ExternalAuthName;
    if Join(tokens) == Join(Tokens(u)) {
      JoinInjective(tokens, Tokens(u));
    }
  }

  // ---- file names ----

  datatype File = VirtualServerFile | TransportServerFile | OidcFile

  function FileName(k: File, ns: string, name: string): string {
    (match k case VirtualServerFile => "vs_" case TransportServerFile => "ts_" case OidcFile => "oidc_") + ns + "_" + name
  }

  function FilePrefix(k: File): string {
    match k case VirtualServerFile => "vs" case TransportServerFile => "ts" case OidcFile => "oidc"
  }

  lemma FileNamesInjective(j: File, k: File, ns: string, name: string, ns': string, name': string)
    requires Plain(ns) && Plain(name) && Plain(ns') && Plain(name')
    requires FileName(j, ns, name) == FileName(k, ns', name')
    ensures j == k && ns == ns' && name == name'
  {
    var p, q := FilePrefix(j), FilePrefix(k);
    assert FileName(j, ns, name) == p + "_" + (ns + "_" + name) && FileName(k, ns', name') == q + "_" + (ns' + "_" + name');
    CutInjective(p, ns + "_" + name, q, ns' + "_" + name', '_');
    CutInjective(ns, name, ns', name', '_');
    assert |p| == |q| && p[0] == q[0];
  }

  /** `strings.Replace` of every `/` in a key. */
  function Replaced(s: string, c: char): (r: string)
    ensures |r| == |s|
  {
    seq(|s|, i requires 0 <= i < |s| => if s[i] == '/' then c else s[i])
  }

  function KeyOf(ns: string, name: string): string { ns + "/" + name }

  function FileNameFromKey(k: File, key: string): string { FilePrefix(k) + "_" + Replaced(key, '_') }

  lemma ReplacedKey(ns: string, name: string, c: char)
    requires Plain(ns) && Plain(name)
    ensures Replaced(KeyOf(ns, name), c) == ns + [c] + name
  {
  }

  /** A resource is deleted under the name it was written to. */
  lemma DeletesWhatWasWritten(k: File, ns: string, name: string)
    requires Plain(ns) && Plain(name)
    ensures FileNameFromKey(k, KeyOf(ns, name)) == FileName(k, ns, name)
  {
    ReplacedKey(ns, name, '_');
    hide Replaced;
    assert FilePrefix(k) + "_" + (ns + "_" + name) == FilePrefix(k) + "_" + ns + "_" + name;
  }

  /** Ingress files join with a hyphen, so two Ingresses can share one. */
  function IngressFileName(ns: string, name: string): string { ns + "-" + name }

  lemma IngressFileNamesCollide(a: string, b: string, c: string)
    ensures IngressFileName(a + "-" + b, c) == IngressFileName(a, b + "-" + c)
  {
  }

  lemma IngressDeletesWhatWasWritten(ns: string, name: string)
    requires Plain(ns) && Plain(name)
    ensures Replaced(KeyOf(ns, name), '-') == IngressFileName(ns, name)
  {
    ReplacedKey(ns, name, '-');
  }

  /** But never with a VirtualServer, a TransportServer or an OIDC file. */
  lemma IngressFilesApart(k: File, ns: string, name: string, ns': string, name': string)
    requires Plain(ns) && Plain(name) && Plain(ns') && Plain(name')
    ensures FileName(k, ns, name) != IngressFileName(ns', name')
  {
    var f, g := FileName(k, ns, name), IngressFileName(ns', name');
    assert f[|FilePrefix(k)|] == '_';
    assert forall i :: 0 <= i < |g| ==> g[i] != '_';
  }
}
