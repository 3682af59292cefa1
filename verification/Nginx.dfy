/** The part of NGINX's http block that a generated VirtualServer config runs on:
    `map`, `split_clients` and `keyval` variables, and the strings that refer to them. */
module Nginx {
  import opened Text

  datatype Parameter = Parameter(value: string, result: string)

  datatype Map = Map(source: string, variable: string, parameters: seq<Parameter>)

  datatype Distribution = Distribution(weight: nat, value: string)

  datatype SplitClient = SplitClient(source: string, variable: string, distributions: seq<Distribution>)

  datatype KeyVal = KeyVal(key: string, variable: string, zone: string)

  datatype Program = Program(maps: seq<Map>, splitClients: seq<SplitClient>, keyVals: seq<KeyVal>)

  /** The bucket, in percent, that `split_clients` hashes a source string to. */
  type Percentile = p: real | 0.0 <= p < 100.0 witness 0.0

  datatype Field = Field(name: string, value: string)

  /** One request: its headers, cookies and arguments as they were sent, and what NGINX supplies:
      its other variables (named with their `$`), its regular-expression matcher, its hash, and the
      stored key-values. */
  datatype Request = Request(
    headers: seq<Field>,
    cookies: seq<Field>,
    arguments: seq<Field>,
    variables: string -> string,
    regex: (string, string) -> bool,
    hash: string -> Percentile,
    store: map<(string, string), string>)

  // ---- map parameters ----

  datatype Entry = DefaultEntry | Exact(text: string) | Regex(pattern: string) | Directive

  function LowerChar(c: char): char { if 'A' <= c <= 'Z' then c - 'A' + 'a' else c }

  function Lower(s: string): (r: string)
    ensures |r| == |s|
  {
    seq(|s|, i requires 0 <= i < |s| => LowerChar(s[i]))
  }

  /** `map` compares plain strings ignoring case. */
  predicate SameText(a: string, b: string) { Lower(a) == Lower(b) }

  function Unquote(raw: string): string {
    if |raw| >= 2 && raw[0] == '"' && raw[|raw| - 1] == '"' then raw[1..|raw| - 1] else raw
  }

  const SPECIAL_PARAMETERS: set<string> := {"default", "hostnames", "include", "volatile"}

  /** How NGINX reads the first word of a `map` parameter. */
  function Decode(raw: string): Entry {
    var t := Unquote(raw);
    if t == "default" then DefaultEntry
    else if t in SPECIAL_PARAMETERS then Directive
    else if |t| > 0 && t[0] == '\\' then Exact(t[1..])
    else if |t| > 0 && t[0] == '~' then Regex(t[1..])
    else Exact(t)
  }

  function ExactResult(params: seq<Parameter>, x: string): Option<string> {
    if |params| == 0 then None
    else match Decode(params[0].value)
      case Exact(t) => if SameText(t, x) then Some(params[0].result) else ExactResult(params[1..], x)
      case _ => ExactResult(params[1..], x)
  }

  function RegexResult(params: seq<Parameter>, x: string, regex: (string, string) -> bool): Option<string> {
    if |params| == 0 then None
    else match Decode(params[0].value)
      case Regex(t) => if regex(t, x) then Some(params[0].result) else RegexResult(params[1..], x, regex)
      case _ => RegexResult(params[1..], x, regex)
  }

  function DefaultResult(params: seq<Parameter>): string {
    if |params| == 0 then ""
    else if Decode(params[0].value).DefaultEntry? then params[0].result
    else DefaultResult(params[1..])
  }

  /** Plain strings win over regular expressions, those are tried in order, and the
      default comes last. */
  function Select(params: seq<Parameter>, x: string, regex: (string, string) -> bool): string {
    match ExactResult(params, x)
    case Some(r) => r
    case None =>
      match RegexResult(params, x, regex)
      case Some(r) => r
      case None => DefaultResult(params)
  }

  // ---- split_clients ----

  /** The value of the first distribution whose cumulative weight exceeds the bucket;
      empty when the weights do not reach it. */
  function Pick(ds: seq<Distribution>, below: nat, p: Percentile): string
  {
    if |ds| == 0 then ""
    else if p < (below + ds[0].weight) as real then ds[0].value
    else Pick(ds[1..], below + ds[0].weight, p)
  }

  // ---- variables ----

  /** The definition in force for a variable: a later definition replaces an earlier one. */
  function FindMap(maps: seq<Map>, name: string): Option<Map>
  {
    if |maps| == 0 then None
    else if maps[|maps| - 1].variable == name then Some(maps[|maps| - 1])
    else FindMap(maps[..|maps| - 1], name)
  }

  function FindSplitClient(scs: seq<SplitClient>, name: string): Option<SplitClient>
  {
    if |scs| == 0 then None
    else if scs[|scs| - 1].variable == name then Some(scs[|scs| - 1])
    else FindSplitClient(scs[..|scs| - 1], name)
  }

  function FindKeyVal(kvs: seq<KeyVal>, name: string): Option<KeyVal>
  {
    if |kvs| == 0 then None
    else if kvs[|kvs| - 1].variable == name then Some(kvs[|kvs| - 1])
    else FindKeyVal(kvs[..|kvs| - 1], name)
  }

  lemma {:induction false} FindMapSpec(maps: seq<Map>, name: string)
    ensures FindMap(maps, name).None? <==> forall m :: m in maps ==> m.variable != name
    ensures FindMap(maps, name).Some? ==> FindMap(maps, name).value in maps && FindMap(maps, name).value.variable == name
  {
    if |maps| > 0 {
      FindMapSpec(maps[..|maps| - 1], name);
    }
  }

  lemma {:induction false} FindSplitClientSpec(scs: seq<SplitClient>, name: string)
    ensures FindSplitClient(scs, name).None? <==> forall s :: s in scs ==> s.variable != name
    ensures FindSplitClient(scs, name).Some? ==> FindSplitClient(scs, name).value in scs && FindSplitClient(scs, name).value.variable == name
  {
    if |scs| > 0 {
      FindSplitClientSpec(scs[..|scs| - 1], name);
    }
  }

  lemma {:induction false} FindKeyValSpec(kvs: seq<KeyVal>, name: string)
    ensures FindKeyVal(kvs, name).None? <==> forall k :: k in kvs ==> k.variable != name
    ensures FindKeyVal(kvs, name).Some? ==> FindKeyVal(kvs, name).value in kvs && FindKeyVal(kvs, name).value.variable == name
  {
    if |kvs| > 0 {
      FindKeyValSpec(kvs[..|kvs| - 1], name);
    }
  }

  /** What a variable is. */
  datatype Definition =
    | MapDef(m: Map)
    | SplitDef(s: SplitClient)
    | KeyvalDef(k: KeyVal)
    | Native

  type Env = string -> Definition

  function Resolve(p: Program, name: string): Definition {
    match FindMap(p.maps, name)
    case Some(m) => MapDef(m)
    case None =>
      match FindSplitClient(p.splitClients, name)
      case Some(s) => SplitDef(s)
      case None =>
        match FindKeyVal(p.keyVals, name)
        case Some(k) => KeyvalDef(k)
        case None => Native
  }

  function EnvOf(p: Program): Env { name => Resolve(p, name) }

  function Stored(q: Request, zone: string, key: string): string {
    if (zone, key) in q.store then q.store[(zone, key)] else ""
  }

  // ---- variables of the request ----

  /** The values of the fields with these names, joined by commas. */
  function Combined(fields: seq<Field>, named: string -> bool): string {
    if |fields| == 0 then ""
    else
      var rest := Combined(fields[..|fields| - 1], named);
      var last := fields[|fields| - 1];
      if !named(last.name) then rest else if rest == "" then last.value else rest + ", " + last.value
  }

  /** The value of the first field with this name, ignoring case. */
  function FirstNamed(fields: seq<Field>, name: string): string {
    if |fields| == 0 then "" else if SameText(fields[0].name, name) then fields[0].value else FirstNamed(fields[1..], name)
  }

  /** A header stands behind a variable whose name has an underscore for each of its dashes. NGINX
      drops headers with underscores of their own. */
  predicate StandsBehind(header: string, word: string) {
    && |header| == |word| && Lacks(header, '_')
    && forall i :: 0 <= i < |header| ==> LowerChar(word[i]) == if header[i] == '-' then '_' else LowerChar(header[i])
  }

  /** What NGINX's own variables hold. */
  function NativeValue(q: Request, name: string): string {
    if StartsWith(name, "$http_") then Combined(q.headers, h => StandsBehind(h, name[6..]))
    else if StartsWith(name, "$cookie_") then FirstNamed(q.cookies, name[8..])
    else if StartsWith(name, "$arg_") then FirstNamed(q.arguments, name[5..])
    else q.variables(name)
  }

  /** The value of variable `name`, or None when more than `depth` variables would be
      open at once (NGINX gives up on such a chain too). */
  function Value(e: Env, q: Request, name: string, depth: nat): Option<string>
    decreases depth, 0
  {
    if depth == 0 then None
    else match e(name)
      case MapDef(m) =>
        (match Expand(e, q, m.source, depth - 1)
         case None => None
         case Some(x) => Expand(e, q, Select(m.parameters, x, q.regex), depth - 1))
      case SplitDef(s) =>
        (match Expand(e, q, s.source, depth - 1)
         case None => None
         case Some(x) => Some(Pick(s.distributions, 0, q.hash(x))))
      case KeyvalDef(k) => Some(Stored(q, k.zone, Unquote(k.key)))
      case Native => Some(NativeValue(q, name))
  }

  function WordLength(s: string): (n: nat)
    ensures n <= |s|
    ensures forall i :: 0 <= i < n ==> IsWord(s[i])
    ensures n < |s| ==> !IsWord(s[n])
  {
    if |s| > 0 && IsWord(s[0]) then 1 + WordLength(s[1..]) else 0
  }

  /** A string with every `$name` in it replaced by that variable's value. */
  function Expand(e: Env, q: Request, s: string, depth: nat): Option<string>
    decreases depth, 1 + |s|
  {
    if |s| == 0 then Some("")
    else if s[0] == '$' then
      var n := 1 + WordLength(s[1..]);
      match Value(e, q, s[..n], depth)
      case None => None
      case Some(v) =>
        match Expand(e, q, s[n..], depth)
        case None => None
        case Some(r) => Some(v + r)
    else
      match Expand(e, q, s[1..], depth)
      case None => None
      case Some(r) => Some([s[0]] + r)
  }

  // ---- facts about expansion ----

  lemma {:induction false} ExpandLiteral(e: Env, q: Request, s: string, depth: nat)
    requires Lacks(s, '$')
    ensures Expand(e, q, s, depth) == Some(s)
  {
    if |s| > 0 {
      ExpandLiteral(e, q, s[1..], depth);
      assert s == [s[0]] + s[1..];
    }
  }

  predicate IsVariable(s: string) { |s| > 0 && s[0] == '$' && AllWord(s[1..]) }

  lemma {:induction false} WordLengthOfPrefix(w: string, rest: string)
    requires AllWord(w)
    requires |rest| == 0 || !IsWord(rest[0])
    ensures WordLength(w + rest) == |w|
  {
    if |w| > 0 {
      assert (w + rest)[1..] == w[1..] + rest;
      WordLengthOfPrefix(w[1..], rest);
    } else {
      assert w + rest == rest;
    }
  }

  /** A variable followed by nothing, or by another variable, expands to its own value
      followed by the rest. */
  lemma ExpandVariable(e: Env, q: Request, v: string, rest: string, depth: nat)
    requires IsVariable(v)
    requires |rest| == 0 || rest[0] == '$'
    ensures Expand(e, q, v + rest, depth) ==
            match Value(e, q, v, depth)
            case None => None
            case Some(x) => match Expand(e, q, rest, depth)
                            case None => None
                            case Some(r) => Some(x + r)
  {
    var s := v + rest;
    WordLengthOfPrefix(v[1..], rest);
    assert s[1..] == v[1..] + rest;
    var n := 1 + WordLength(s[1..]);
    assert s[..n] == v && s[n..] == rest;
  }

  /** A `$` is read with the longest word after it, and no further. */
  lemma ExpandWordThenLiteral(e: Env, q: Request, w: string, rest: string, depth: nat)
    requires AllWord(w) && |rest| > 0 && !IsWord(rest[0]) && Lacks(rest, '$')
    ensures Expand(e, q, "$" + w + rest, depth) ==
            match Value(e, q, "$" + w, depth)
            case None => None
            case Some(x) => Some(x + rest)
  {
    var s := "$" + w + rest;
    WordLengthOfPrefix(w, rest);
    assert s[1..] == w + rest;
    assert s[..1 + |w|] == "$" + w && s[1 + |w|..] == rest;
    ExpandLiteral(e, q, rest, depth);
  }

  lemma ExpandSingle(e: Env, q: Request, v: string, depth: nat)
    requires IsVariable(v)
    ensures Expand(e, q, v, depth) == Value(e, q, v, depth)
  {
    ExpandVariable(e, q, v, "", depth);
    assert v + "" == v;
    match Value(e, q, v, depth)
    case None =>
    case Some(x) => assert x + "" == x;
  }
}
