/** VirtualServer routes as their authors write them, and what they ask for. */
module Routes {
  import opened Text
  import opened Nginx

  datatype Redirect = Redirect(url: string, code: int)

  datatype Return = Return(code: int, contentType: string, body: string)

  /** Exactly one of the four is set; the generator prefers them in the order
      redirect, return, proxy, pass. */
  datatype Action = Action(pass: string, proxy: string, redirect: Option<Redirect>, ret: Option<Return>)

  datatype Split = Split(weight: nat, action: Action)

  datatype Condition = Condition(header: string, cookie: string, argument: string, variable: string, value: string)

  datatype Match = Match(conditions: seq<Condition>, action: Action, splits: seq<Split>)

  /** `redirect` wins over `ret`, which is present whenever `redirect` is not. */
  datatype ErrorPage = ErrorPage(codes: seq<int>, redirect: Option<Redirect>, ret: Return)

  /** `policyMaps` are the maps that the route's own policies contribute. */
  datatype Route = Route(
    path: string,
    matches: seq<Match>,
    splits: seq<Split>,
    action: Action,
    errorPages: Option<seq<ErrorPage>>,
    policyMaps: seq<Map>)

  // ---- what a route asks for ----

  /** What happens to a request in the end. */
  datatype Effect =
    | Proxied(upstream: string)
    | Redirected(url: string, code: int)
    | Responded(code: int, contentType: string, body: string)

  function Meaning(prefix: string, a: Action): Effect {
    if a.redirect.Some? then
      Redirected(a.redirect.value.url, if a.redirect.value.code == 0 then 301 else a.redirect.value.code)
    else if a.ret.Some? then
      Responded(if a.ret.value.code == 0 then 200 else a.ret.value.code,
                if a.ret.value.contentType == "" then "text/plain" else a.ret.value.contentType,
                a.ret.value.body)
    else
      Proxied(prefix + "_" + if a.proxy != "" then a.proxy else a.pass)
  }

  /** The first error page for a status, or the number of pages. */
  function PageFor(pages: seq<ErrorPage>, status: int): (i: nat)
    ensures i <= |pages| && (i < |pages| ==> status in pages[i].codes)
    ensures forall j :: 0 <= j < i ==> status !in pages[j].codes
  {
    if |pages| == 0 || status in pages[0].codes then 0 else 1 + PageFor(pages[1..], status)
  }

  /** What an error page answers instead of the upstream: a redirect, or a response with the
      upstream's status unless it has one of its own. */
  function Replaced(e: ErrorPage, status: int): Effect {
    if e.redirect.Some? then Redirected(e.redirect.value.url, if e.redirect.value.code == 0 then 301 else e.redirect.value.code)
    else Responded(if e.ret.code == 0 then status else e.ret.code, if e.ret.contentType == "" then "text/html" else e.ret.contentType, e.ret.body)
  }

  /** What a request gets in the end when the upstream, if the action has one, answers with this
      status. */
  function Answered(prefix: string, pages: seq<ErrorPage>, a: Action, status: int): Effect {
    var i := PageFor(pages, status);
    if Meaning(prefix, a).Proxied? && i < |pages| then Replaced(pages[i], status) else Meaning(prefix, a)
  }

  /** The part of the request that a condition looks at: a header, a cookie or an argument by its
      name, ignoring case, or a variable. */
  function Inspected(c: Condition, q: Request): string {
    if c.header != "" then Combined(q.headers, h => SameText(h, c.header))
    else if c.cookie != "" then FirstNamed(q.cookies, c.cookie)
    else if c.argument != "" then FirstNamed(q.arguments, c.argument)
    else q.variables(c.variable)
  }

  /** A value is a text, compared ignoring case, or a regular expression after `~`. */
  predicate Fits(value: string, x: string, q: Request) {
    if |value| > 0 && value[0] == '~' then q.regex(value[1..], x) else SameText(value, x)
  }

  /** After `!` it is negated. */
  predicate Holds(c: Condition, q: Request) {
    if |c.value| > 0 && c.value[0] == '!' then !Fits(c.value[1..], Inspected(c, q), q) else Fits(c.value, Inspected(c, q), q)
  }

  predicate AllHold(cs: seq<Condition>, j: nat, q: Request)
    requires j <= |cs|
  {
    forall k :: j <= k < |cs| ==> Holds(cs[k], q)
  }

  /** The index of the first match from `i` on whose conditions all hold; the number of
      matches when there is none. */
  function FirstMatch(ms: seq<Match>, i: nat, q: Request): (k: nat)
    requires i <= |ms|
    ensures i <= k <= |ms|
    ensures k < |ms| ==> AllHold(ms[k].conditions, 0, q)
    ensures forall j :: i <= j < k ==> !AllHold(ms[j].conditions, 0, q)
    decreases |ms| - i
  {
    if i == |ms| then i
    else if AllHold(ms[i].conditions, 0, q) then i
    else FirstMatch(ms, i + 1, q)
  }

  function Sum(ws: seq<nat>): nat {
    if |ws| == 0 then 0 else ws[0] + Sum(ws[1..])
  }

  function Weights(splits: seq<Split>): (ws: seq<nat>)
    ensures |ws| == |splits|
  {
    seq(|splits|, i requires 0 <= i < |splits| => splits[i].weight)
  }

  /** The share of the hash space that bucket `p` falls in. */
  function Chosen(ws: seq<nat>, below: nat, p: Percentile): (i: nat)
    requires |ws| > 0
    ensures i < |ws|
  {
    if |ws| == 1 || p < (below + ws[0]) as real then 0
    else 1 + Chosen(ws[1..], below + ws[0], p)
  }

  /** Share `i` covers the percentages from the sum of the weights before it up to that
      sum plus its own, so every share gets exactly the part of the hash space that its
      weight stands for and a share of weight zero gets nothing. */
  lemma {:induction false} ChosenCovers(ws: seq<nat>, below: nat, p: Percentile)
    requires below + Sum(ws) >= 100 && below as real <= p
    ensures |ws| > 0
    ensures var i := Chosen(ws, below, p);
            (below + Sum(ws[..i])) as real <= p < (below + Sum(ws[..i]) + ws[i]) as real
  {
    if p >= (below + ws[0]) as real {
      ChosenCovers(ws[1..], below + ws[0], p);
      var i := Chosen(ws[1..], below + ws[0], p);
      assert ws[..i + 1] == [ws[0]] + ws[1..][..i];
      assert ws[..i + 1][1..] == ws[1..][..i];
    }
  }

  /** The converse: the bucket decides the share, so two shares never overlap. */
  lemma {:induction false} ChosenUnique(ws: seq<nat>, below: nat, p: Percentile, i: nat)
    requires i < |ws|
    requires (below + Sum(ws[..i])) as real <= p < (below + Sum(ws[..i]) + ws[i]) as real
    ensures Chosen(ws, below, p) == i
  {
    if i > 0 {
      assert ws[..i] == [ws[0]] + ws[1..][..i - 1];
      assert ws[..i][1..] == ws[1..][..i - 1];
      ChosenUnique(ws[1..], below + ws[0], p, i - 1);
    }
  }

  // ---- what validation guarantees ----

  predicate ValidSplits(splits: seq<Split>) { Sum(Weights(splits)) == 100 }

  predicate ValidAction(a: Action) {
    a.redirect.Some? ==> !StartsWith(a.redirect.value.url, "@")
  }

  /** The variables the generator itself defines: routing variables, and those of policies
      (rate-limit groups and zones, CORS origins, API-key clients). */
  predicate Routing(v: string) { StartsWith(v, "$vs_") }

  predicate PolicyVariable(v: string) {
    || StartsWith(v, "$rl_")
    || StartsWith(v, "$pol_rl_")
    || StartsWith(v, "$cors_origin_")
    || StartsWith(v, "$apikey_auth_client_name_")
  }

  predicate NativeVariable(v: string) { IsVariable(v) && !Routing(v) && !PolicyVariable(v) }

  /** The variables that name a part of the request; a condition names the part itself. */
  predicate OfRequest(v: string) { StartsWith(v, "$http_") || StartsWith(v, "$cookie_") || StartsWith(v, "$arg_") }

  predicate ValidCondition(c: Condition) {
    && (forall i :: 0 <= i < |c.header| ==> (IsWord(c.header[i]) && c.header[i] != '_') || c.header[i] == '-')
    && AllWord(c.cookie)
    && AllWord(c.argument)
    && (c.header == "" && c.cookie == "" && c.argument == "" ==> NativeVariable(c.variable) && !OfRequest(c.variable))
    && Lacks(c.value, '"')
    && Lacks(c.value, '\\')
  }

  predicate ValidMatch(m: Match) {
    && |m.conditions| > 0
    && (forall c :: c in m.conditions ==> ValidCondition(c))
    && (|m.splits| > 0 ==> ValidSplits(m.splits))
    && ValidAction(m.action)
    && (forall s :: s in m.splits ==> ValidAction(s.action))
  }

  /** A policy defines one of its own variables, and the name holds no second `$`. */
  predicate ValidPolicyMap(m: Map) {
    PolicyVariable(m.variable) && Lacks(m.variable[1..], '$')
  }

  /** The redirect of an error page is held to the same rules as that of an action, and its codes
      are those of redirects and errors. */
  predicate ValidPages(pages: seq<ErrorPage>) {
    && (forall e :: e in pages && e.redirect.Some? ==> !StartsWith(e.redirect.value.url, "@"))
    && (forall e, code :: e in pages && code in e.codes ==> 300 <= code <= 599)
  }

  predicate ValidRoute(r: Route) {
    && (forall m :: m in r.matches ==> ValidMatch(m))
    && (|r.splits| > 0 ==> ValidSplits(r.splits))
    && ValidAction(r.action)
    && (forall s :: s in r.splits ==> ValidAction(s.action))
    && (forall m :: m in r.policyMaps ==> ValidPolicyMap(m))
    && (r.errorPages.Some? ==> ValidPages(r.errorPages.value))
  }
}
