/** How NGINX picks the `location` block for a URI: an exact one, else the longest prefix if
    it is preferred, else the first regular expression that matches, else the longest prefix. */
module LocationChoice {
  import opened Text
  import opened Nginx

  datatype Pattern =
    | ExactPath(uri: string)
    | PreferredPath(prefix: string)
    | PlainPath(prefix: string)
    | RegexPath(pattern: string)

  /** How NGINX reads the path of a block. A regular expression stands in quotes, and one that
      ignores case keeps its `*`, as in a `map`. */
  function ReadPath(text: string): Pattern {
    if StartsWith(text, "= ") then ExactPath(text[2..])
    else if StartsWith(text, "^~ ") then PreferredPath(text[3..])
    else if StartsWith(text, "~* ") then RegexPath("*" + Unquote(text[3..]))
    else if StartsWith(text, "~ ") then RegexPath(Unquote(text[2..]))
    else PlainPath(text)
  }

  /** What the path of a route means: an exact path after `=`, a preferred one after `^~`, a regular
      expression after `~`, which ignores case after `~*`, or a plain path. */
  function RoutePattern(path: string): Pattern {
    if StartsWith(path, "=") then ExactPath(TrimLeft(path[1..]))
    else if StartsWith(path, "^~") then PreferredPath(TrimLeft(path[2..]))
    else if StartsWith(path, "~*") then RegexPath("*" + TrimLeft(path[2..]))
    else if StartsWith(path, "~") then RegexPath(TrimLeft(path[1..]))
    else PlainPath(path)
  }

  predicate IsPrefix(p: Pattern) { p.PreferredPath? || p.PlainPath? }

  /** The first exact block for the URI, or the length. */
  function FirstExact(ps: seq<Pattern>, uri: string): (i: nat)
    ensures i <= |ps| && (i < |ps| ==> ps[i] == ExactPath(uri)) && forall j :: 0 <= j < i ==> ps[j] != ExactPath(uri)
  {
    if |ps| == 0 || ps[0] == ExactPath(uri) then 0 else 1 + FirstExact(ps[1..], uri)
  }

  predicate RegexHit(p: Pattern, q: Request, uri: string) { p.RegexPath? && q.regex(p.pattern, uri) }

  /** The first regular expression that matches, or the length. */
  function FirstRegex(ps: seq<Pattern>, q: Request, uri: string): (i: nat)
    ensures i <= |ps| && (i < |ps| ==> RegexHit(ps[i], q, uri)) && forall j :: 0 <= j < i ==> !RegexHit(ps[j], q, uri)
  {
    if |ps| == 0 || RegexHit(ps[0], q, uri) then 0 else 1 + FirstRegex(ps[1..], q, uri)
  }

  predicate PrefixHit(p: Pattern, uri: string) { IsPrefix(p) && p.prefix <= uri }

  /** The first of the longest prefixes of the URI, or the length. */
  function LongestPrefix(ps: seq<Pattern>, uri: string): (i: nat)
    ensures i <= |ps|
    ensures i < |ps| ==> PrefixHit(ps[i], uri)
    ensures forall j :: 0 <= j < |ps| && PrefixHit(ps[j], uri) ==> i < |ps| && |ps[j].prefix| <= |ps[i].prefix|
  {
    if |ps| == 0 then 0
    else
      var i := LongestPrefix(ps[1..], uri);
      assert forall j :: 0 < j < |ps| ==> ps[j] == ps[1..][j - 1];
      if PrefixHit(ps[0], uri) && (i == |ps| - 1 || |ps[1..][i].prefix| <= |ps[0].prefix|) then 0 else 1 + i
  }

  function Choose(ps: seq<Pattern>, q: Request, uri: string): Option<nat> {
    var e, l, r := FirstExact(ps, uri), LongestPrefix(ps, uri), FirstRegex(ps, q, uri);
    if e < |ps| then Some(e)
    else if l < |ps| && ps[l].PreferredPath? then Some(l)
    else if r < |ps| then Some(r)
    else if l < |ps| then Some(l)
    else None
  }

  /** The block would win over a plain block at the URI, or is a second block at it. */
  predicate Takes(p: Pattern, q: Request, uri: string) {
    match p
    case ExactPath(u) => u == uri
    case RegexPath(re) => q.regex(re, uri)
    case _ => p.prefix == uri
  }

  /** NGINX refuses two blocks with the same prefix. */
  predicate Unshared(ps: seq<Pattern>, i: nat)
    requires i < |ps| && IsPrefix(ps[i])
  {
    forall j :: 0 <= j < |ps| && j != i && IsPrefix(ps[j]) ==> ps[j].prefix != ps[i].prefix
  }

  ghost predicate NoOtherTakes(ps: seq<Pattern>, q: Request, uri: string, i: nat) {
    forall j :: 0 <= j < |ps| && j != i ==> !Takes(ps[j], q, uri)
  }

  /** A plain block at exactly the URI is accepted and chosen if and only if no other block is
      there, has the URI as its exact path, or has a regular expression that matches it. */
  lemma PlainBlockChosen(ps: seq<Pattern>, q: Request, uri: string, i: nat)
    requires i < |ps| && ps[i] == PlainPath(uri)
    ensures (Choose(ps, q, uri) == Some(i) && Unshared(ps, i)) <==> NoOtherTakes(ps, q, uri, i)
  {
    hide FirstExact, FirstRegex, LongestPrefix;
    var e, l, r := FirstExact(ps, uri), LongestPrefix(ps, uri), FirstRegex(ps, q, uri);
    assert PrefixHit(ps[i], uri);
    assert l < |ps| && |ps[l].prefix| == |uri| && ps[l].prefix == uri;
    if Choose(ps, q, uri) == Some(i) && Unshared(ps, i) {
      forall j | 0 <= j < |ps| && j != i
        ensures !Takes(ps[j], q, uri)
      {
        assert ps[j] != ExactPath(uri) && !RegexHit(ps[j], q, uri);
      }
    }
    if NoOtherTakes(ps, q, uri, i) {
      assert forall j :: 0 <= j < |ps| ==> ps[j] != ExactPath(uri) && !RegexHit(ps[j], q, uri);
      assert Takes(ps[l], q, uri);
    }
  }

  /** One exact path or matching regular expression takes the URI from the plain block at it. */
  lemma TakerChosen(ps: seq<Pattern>, q: Request, uri: string, i: nat, j: nat)
    requires i < |ps| && j < |ps| && ps[i] == PlainPath(uri) && !IsPrefix(ps[j]) && Takes(ps[j], q, uri)
    requires forall b :: 0 <= b < |ps| && b != i && b != j ==> !Takes(ps[b], q, uri)
    ensures Choose(ps, q, uri) == Some(j) && Unshared(ps, i)
  {
    hide FirstExact, FirstRegex, LongestPrefix;
    var e, l, r := FirstExact(ps, uri), LongestPrefix(ps, uri), FirstRegex(ps, q, uri);
    assert PrefixHit(ps[i], uri);
    assert l < |ps| && ps[l].prefix == uri;
    assert Takes(ps[l], q, uri);
    assert e < |ps| ==> Takes(ps[e], q, uri);
    assert ps[j].RegexPath? ==> RegexHit(ps[j], q, uri);
    assert r < |ps| ==> Takes(ps[r], q, uri);
  }
}
