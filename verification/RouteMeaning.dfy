/** Running the generated maps, split clients and key-values of one route selects the
    internal location of the action that the route asks for. */
module RouteMeaning {
  import opened Text
  import opened Nginx
  import opened Routes
  import opened Compile
  import opened VariableNames

  // ---- the environment the generated pieces run in ----

  /** Nothing redefines a variable of NGINX itself. */
  ghost predicate KeepsNative(e: Env) {
    forall v {:trigger NativeVariable(v)} :: NativeVariable(v) ==> e(v) == Native
  }

  /** The only thing asked of the regular-expression engine: an anchored pattern of plain
      digits matches the strings that begin with it. */
  ghost predicate MatchesAnchoredDigits(q: Request) {
    forall z: string, x: string {:trigger q.regex("^" + z, x)} :: AllDigits(z) ==> (q.regex("^" + z, x) <==> z <= x)
  }

  lemma ExpandNative(e: Env, q: Request, v: string, depth: nat)
    requires KeepsNative(e) && NativeVariable(v) && depth >= 1
    ensures Expand(e, q, v, depth) == Some(NativeValue(q, v))
  {
    hide NativeValue;
    ExpandSingle(e, q, v, depth);
  }

  lemma StartsDifferently(s: string, prefix: string, i: nat)
    requires i < |s| && i < |prefix| && s[i] != prefix[i]
    ensures !StartsWith(s, prefix)
  {
  }

  /** A variable whose third to fifth characters tell it apart is neither a routing nor a
      policy variable. */
  lemma NativeByLetters(s: string)
    requires IsVariable(s) && |s| >= 5
    requires s[1] !in {'v', 'r', 'p'} && !(s[1] == 'c' && s[3] == 'r') && !(s[1] == 'a' && s[2] == 'p')
    ensures NativeVariable(s)
  {
    hide StartsWith, IsVariable;
    StartsDifferently(s, "$vs_", 1);
    StartsDifferently(s, "$rl_", 1);
    StartsDifferently(s, "$pol_rl_", 1);
    StartsDifferently(s, "$cors_origin_", if s[1] == 'c' then 3 else 1);
    StartsDifferently(s, "$apikey_auth_client_name_", if s[1] == 'a' then 2 else 1);
  }

  lemma SubjectIsNative(c: Condition)
    requires ValidCondition(c)
    ensures NativeVariable(Subject(c))
  {
    hide StartsWith, NativeVariable;
    var s := Subject(c);
    if c.header != "" {
      assert s[1..] == "http_" + Underscored(c.header);
      NativeByLetters(s);
    } else if c.cookie != "" {
      assert s[1..] == "cookie_" + c.cookie;
      NativeByLetters(s);
    } else if c.argument != "" {
      assert s[1..] == "arg_" + c.argument;
      NativeByLetters(s);
    }
  }

  /** The variable that the generator picks holds the part of the request that the condition
      looks at. */
  lemma SubjectHolds(c: Condition, q: Request)
    requires ValidCondition(c)
    ensures NativeValue(q, Subject(c)) == Inspected(c, q)
  {
    var s := Subject(c);
    if c.header != "" {
      assert s[..6] == "$http_" && s[6..] == Underscored(c.header);
      var a, b := (h: string) => StandsBehind(h, s[6..]), (h: string) => SameText(h, c.header);
      forall h: string
        ensures a(h) <==> b(h)
      {
        HeaderBehind(h, c.header);
      }
      hide StandsBehind, SameText, Underscored;
      CombinedSame(q.headers, a, b);
      CombinedSame(q.headers, (h: string) => StandsBehind(h, s[6..]), a);
      CombinedSame(q.headers, (h: string) => SameText(h, c.header), b);
    } else if c.cookie != "" {
      assert s[..8] == "$cookie_" && s[8..] == c.cookie;
      assert s[1] == 'c';
    } else if c.argument != "" {
      assert s[..5] == "$arg_" && s[5..] == c.argument;
      assert s[1] == 'a';
    }
  }

  lemma {:induction false} CombinedSame(fields: seq<Field>, a: string -> bool, b: string -> bool)
    requires forall h :: a(h) <==> b(h)
    ensures Combined(fields, a) == Combined(fields, b)
  {
    if |fields| > 0 {
      CombinedSame(fields[..|fields| - 1], a, b);
    }
  }

  /** A header without underscores stands behind the variable exactly when it is the one named. */
  lemma HeaderBehind(header: string, name: string)
    requires forall i :: 0 <= i < |name| ==> (IsWord(name[i]) && name[i] != '_') || name[i] == '-'
    ensures StandsBehind(header, Underscored(name)) <==> SameText(header, name)
  {
    var word := Underscored(name);
    if |header| == |name| {
      if SameText(header, name) {
        forall i | 0 <= i < |header|
          ensures header[i] != '_' && LowerChar(word[i]) == if header[i] == '-' then '_' else LowerChar(header[i])
        {
          assert Lower(header)[i] == Lower(name)[i];
        }
      }
      if StandsBehind(header, word) {
        forall i | 0 <= i < |header|
          ensures Lower(header)[i] == Lower(name)[i]
        {
          assert header[i] != '_';
        }
        assert Lower(header) == Lower(name);
      }
    } else {
      assert |Lower(header)| != |Lower(name)|;
    }
  }

  lemma RequestIdIsNative(q: Request)
    ensures NativeVariable("$request_id") && NativeValue(q, "$request_id") == q.variables("$request_id")
  {
    var s := "$request_id";
    assert s[1] == 'r' && s[2] == 'e';
  }

  // ---- a group of splits ----

  function Bucket(q: Request): Percentile { q.hash(q.variables("$request_id")) }

  function ShareKeys(st: Settings, sc: nat): (r: seq<string>)
    ensures |r| == WEIGHT_CLIENTS
  {
    seq(WEIGHT_CLIENTS, i requires 0 <= i < WEIGHT_CLIENTS => Unquote(st.namer.weightKey(sc, i, 100 - i)))
  }

  /** The first key that `value` spells. */
  function FirstKey(keys: seq<string>, value: string): (r: Option<nat>)
    ensures r.Some? ==> r.value < |keys| && SameText(keys[r.value], value)
    ensures r.None? ==> forall i :: 0 <= i < |keys| ==> !SameText(keys[i], value)
  {
    if |keys| == 0 then None
    else if SameText(keys[0], value) then Some(0)
    else
      match FirstKey(keys[1..], value)
      case None => None
      case Some(i) => Some(i + 1)
  }

  /** The share of the first of two adjustable splits: the stored one, or everything to
      the heavier split while none is stored, the first one when they weigh the same. */
  function FirstShare(st: Settings, g: Group, q: Request): (i: nat)
    requires |g.splits| == 2
    ensures i <= 100
  {
    match FirstKey(ShareKeys(st, g.index), StoredWeights(st, g.index, q))
    case Some(i) => i
    case None => if g.splits[0].weight < g.splits[1].weight then 0 else 100
  }

  lemma SumOfTwo(i: nat, j: nat)
    ensures Sum([i, j]) == i + j
  {
    assert [i, j][1..] == [j];
    assert Sum([j]) == j + Sum([j][1..]);
  }

  /** The percentages a group is split by. */
  function Shares(st: Settings, g: Group, q: Request): (ws: seq<nat>)
    requires ValidSplits(g.splits)
    ensures |ws| == |g.splits| && Sum(ws) == 100
  {
    if !IsTwoWay(st, g.splits) then Weights(g.splits)
    else
      var i := FirstShare(st, g, q);
      SumOfTwo(i, 100 - i);
      [i, 100 - i]
  }

  /** The split that gets the request. */
  function SelectedSplit(st: Settings, g: Group, q: Request): (i: nat)
    requires ValidSplits(g.splits)
    ensures i < |g.splits|
  {
    Chosen(Shares(st, g, q), 0, Bucket(q))
  }

  function PairSplit(i: nat, q: Request): nat
    requires i <= 100
  {
    SumOfTwo(i, 100 - i);
    Chosen([i, 100 - i], 0, Bucket(q))
  }

  /** Leaving out the splits of weight zero does not change where a bucket falls. */
  lemma {:induction false} PickDistributions(
    st: Settings, splits: seq<Split>, sc: nat, i: nat, below: nat, h: Percentile, ws: seq<nat>)
    requires i <= |splits| && ws == Weights(splits)[i..]
    requires below + Sum(ws) >= 100 && below as real <= h
    ensures Pick(Distributions(st, splits, sc, i), below, h) == st.namer.path(SplitSpot(sc, i + Chosen(ws, below, h)))
    decreases |splits| - i
  {
    assert |ws| > 0 && ws[0] == splits[i].weight;
    assert Sum(ws) == ws[0] + Sum(ws[1..]);
    assert ws[1..] == Weights(splits)[i + 1..];
    if h >= (below + ws[0]) as real {
      PickDistributions(st, splits, sc, i + 1, below + ws[0], h, ws[1..]);
      assert Chosen(ws, below, h) == 1 + Chosen(ws[1..], below + ws[0], h);
      if ws[0] > 0 {
        assert Distributions(st, splits, sc, i)[1..] == Distributions(st, splits, sc, i + 1);
      }
    } else {
      assert Chosen(ws, below, h) == 0;
    }
  }

  lemma PickWeights(st: Settings, sc: nat, i: nat, q: Request)
    requires i <= 100
    ensures Pick(WeightDistributions(st, sc, i, 100 - i), 0, Bucket(q)) == st.namer.path(SplitSpot(sc, PairSplit(i, q)))
  {
    var j := 100 - i;
    SumOfTwo(i, j);
    assert [i, j][1..] == [j];
    var ds := WeightDistributions(st, sc, i, j);
    if i > 0 && j > 0 {
      assert ds[1..] == [Distribution(j, st.namer.path(SplitSpot(sc, 1)))];
    }
    if i > 0 { assert ds[0].weight == i; }
  }

  /** Among parameters that all hold plain keys, the first key spelled by the value wins. */
  lemma {:induction false} FirstKeySelected(ps: seq<Parameter>, keys: seq<string>, rest: seq<Parameter>, value: string)
    requires |ps| == |keys|
    requires forall i :: 0 <= i < |ps| ==> Decode(ps[i].value) == Exact(keys[i])
    ensures ExactResult(ps + rest, value) ==
            match FirstKey(keys, value)
            case None => ExactResult(rest, value)
            case Some(k) => Some(ps[k].result)
    ensures DefaultResult(ps + rest) == DefaultResult(rest)
  {
    hide Decode, SameText;
    if |ps| == 0 {
      assert ps + rest == rest;
    } else {
      assert (ps + rest)[1..] == ps[1..] + rest && (ps + rest)[0] == ps[0];
      FirstKeySelected(ps[1..], keys[1..], rest, value);
    }
  }

  lemma {:induction false} NoRegexNoResult(ps: seq<Parameter>, x: string, regex: (string, string) -> bool)
    requires forall k :: 0 <= k < |ps| ==> !Decode(ps[k].value).Regex?
    ensures RegexResult(ps, x, regex) == None
  {
    if |ps| > 0 {
      NoRegexNoResult(ps[1..], x, regex);
    }
  }

  lemma KeyedSelect(ps: seq<Parameter>, keys: seq<string>, fallback: string, value: string,
                    regex: (string, string) -> bool)
    requires |ps| == |keys|
    requires forall i :: 0 <= i < |ps| ==> Decode(ps[i].value) == Exact(keys[i])
    ensures Select(ps + [Parameter("default", fallback)], value, regex) ==
            match FirstKey(keys, value)
            case Some(k) => ps[k].result
            case None => fallback
  {
    var rest := [Parameter("default", fallback)];
    FirstKeySelected(ps, keys, rest, value);
    assert rest[1..] == [];
    NoRegexNoResult(ps + rest, value, regex);
  }

  function StoredWeights(st: Settings, sc: nat, q: Request): string {
    Stored(q, st.namer.zone(sc), Unquote(st.namer.keyvalKey(sc)))
  }

  /** Every weight key of the map is a plain string. */
  ghost predicate PlainKeys(st: Settings, sc: nat) {
    forall i :: 0 <= i < WEIGHT_CLIENTS ==> Decode(WeightParameters(st, sc)[i].value) == Exact(ShareKeys(st, sc)[i])
  }

  lemma WeightKeysArePlain(st: Settings, sc: nat)
    requires Readable(st.namer)
    ensures PlainKeys(st, sc)
  {
    hide Decode, Unquote, IsVariable, Lacks;
    forall i | 0 <= i < WEIGHT_CLIENTS
      ensures Decode(WeightParameters(st, sc)[i].value) == Exact(ShareKeys(st, sc)[i])
    {
      assert PlainQuoted(st.namer.weightKey(sc, i, 100 - i));
    }
  }

  lemma SelectsByStored(st: Settings, g: Group, q: Request)
    requires PlainKeys(st, g.index) && |g.splits| == 2
    ensures Select(WeightMap(st, g.index, g.splits).parameters, StoredWeights(st, g.index, q), q.regex) ==
            match FirstKey(ShareKeys(st, g.index), StoredWeights(st, g.index, q))
            case Some(k) => WeightParameters(st, g.index)[k].result
            case None => FallbackVariable(st, g.index, g.splits)
  {
    hide Decode, Select, FirstKey, Stored;
    KeyedSelect(WeightParameters(st, g.index), ShareKeys(st, g.index), FallbackVariable(st, g.index, g.splits),
                StoredWeights(st, g.index, q), q.regex);
  }

  lemma WeightMapSelects(st: Settings, g: Group, q: Request)
    requires Readable(st.namer) && |g.splits| == 2
    ensures var i := FirstShare(st, g, q);
            Select(WeightMap(st, g.index, g.splits).parameters, StoredWeights(st, g.index, q), q.regex)
            == st.namer.variable(Weighted(g.index, i, 100 - i))
  {
    hide Decode, Select, FirstKey, StoredWeights, PlainKeys, Readable;
    WeightKeysArePlain(st, g.index);
    SelectsByStored(st, g, q);
  }

  /** All the definitions of a group are in force. */
  ghost predicate GroupDefined(e: Env, st: Settings, g: Group)
    requires |g.splits| > 0
  {
    && (forall s :: s in GroupClients(st, g) ==> e(s.variable) == SplitDef(s))
    && (forall m :: m in GroupMaps(st, g) ==> e(m.variable) == MapDef(m))
    && (forall k :: k in GroupKeyVals(st, g) ==> e(k.variable) == KeyvalDef(k))
  }

  lemma ClientValue(e: Env, q: Request, s: SplitClient, depth: nat)
    requires KeepsNative(e) && e(s.variable) == SplitDef(s) && NativeVariable(s.source) && depth >= 2
    ensures Value(e, q, s.variable, depth) == Some(Pick(s.distributions, 0, q.hash(NativeValue(q, s.source))))
  {
    hide NativeValue;
    ExpandNative(e, q, s.source, depth - 1);
  }

  lemma KeyedMapValue(e: Env, q: Request, m: Map, kv: KeyVal, depth: nat)
    requires KeepsNative(e) && depth >= 2
    requires e(m.variable) == MapDef(m) && e(kv.variable) == KeyvalDef(kv) && m.source == kv.variable
    requires IsVariable(kv.variable)
    ensures Value(e, q, m.variable, depth) ==
            Expand(e, q, Select(m.parameters, Stored(q, kv.zone, Unquote(kv.key)), q.regex), depth - 1)
  {
    ExpandSingle(e, q, kv.variable, depth - 1);
  }

  lemma WeightClientValue(e: Env, q: Request, st: Settings, sc: nat, i: nat, depth: nat)
    requires KeepsNative(e) && Readable(st.namer) && i <= 100 && depth >= 2
    requires forall s :: s in WeightClients(st, sc) ==> e(s.variable) == SplitDef(s)
    ensures Expand(e, q, st.namer.variable(Weighted(sc, i, 100 - i)), depth) ==
            Some(st.namer.path(SplitSpot(sc, PairSplit(i, q))))
  {
    var s := WeightClient(st, sc, i);
    assert s == WeightClients(st, sc)[i];
    ExpandSingle(e, q, s.variable, depth);
    RequestIdIsNative(q);
    ClientValue(e, q, s, depth);
    PickWeights(st, sc, i, q);
  }

  lemma TwoWayGroupCorrect(e: Env, q: Request, st: Settings, g: Group, depth: nat)
    requires KeepsNative(e) && Readable(st.namer) && depth >= 3
    requires ValidSplits(g.splits) && IsTwoWay(st, g.splits) && GroupDefined(e, st, g)
    ensures Expand(e, q, GroupDestination(st, g), depth) ==
            Some(st.namer.path(SplitSpot(g.index, SelectedSplit(st, g, q))))
  {
    var m, kv := GroupMaps(st, g)[0], GroupKeyVals(st, g)[0];
    assert e(m.variable) == MapDef(m) && e(kv.variable) == KeyvalDef(kv);
    ExpandSingle(e, q, m.variable, depth);
    KeyedMapValue(e, q, m, kv, depth);
    WeightMapSelects(st, g, q);
    WeightClientValue(e, q, st, g.index, FirstShare(st, g, q), depth - 1);
  }

  lemma StaticPick(st: Settings, g: Group, q: Request)
    requires ValidSplits(g.splits) && !IsTwoWay(st, g.splits)
    ensures Pick(Distributions(st, g.splits, g.index, 0), 0, Bucket(q)) ==
            st.namer.path(SplitSpot(g.index, SelectedSplit(st, g, q)))
  {
    assert Weights(g.splits)[0..] == Weights(g.splits);
    PickDistributions(st, g.splits, g.index, 0, 0, Bucket(q), Weights(g.splits));
  }

  lemma StaticGroupCorrect(e: Env, q: Request, st: Settings, g: Group, depth: nat)
    requires KeepsNative(e) && Readable(st.namer) && depth >= 2
    requires ValidSplits(g.splits) && !IsTwoWay(st, g.splits) && |g.splits| > 0 && GroupDefined(e, st, g)
    ensures Expand(e, q, GroupDestination(st, g), depth) ==
            Some(st.namer.path(SplitSpot(g.index, SelectedSplit(st, g, q))))
  {
    var s := GroupClients(st, g)[0];
    assert e(s.variable) == SplitDef(s);
    assert IsVariable(s.variable);
    ExpandSingle(e, q, s.variable, depth);
    RequestIdIsNative(q);
    ClientValue(e, q, s, depth);
    StaticPick(st, g, q);
  }

  /** Following a group's variable ends at the path of the split that gets the request. */
  lemma GroupCorrect(e: Env, q: Request, st: Settings, g: Group, depth: nat)
    requires KeepsNative(e) && Readable(st.namer) && depth >= 3
    requires |g.splits| > 0 && ValidSplits(g.splits) && GroupDefined(e, st, g)
    ensures Expand(e, q, GroupDestination(st, g), depth) ==
            Some(st.namer.path(SplitSpot(g.index, SelectedSplit(st, g, q))))
  {
    if IsTwoWay(st, g.splits) {
      TwoWayGroupCorrect(e, q, st, g, depth);
    } else {
      StaticGroupCorrect(e, q, st, g, depth);
    }
  }

  // ---- conditions ----

  lemma ConditionKeyDecodes(value: string)
    requires Lacks(value, '"') && Lacks(value, '\\')
    ensures var w := Wanted(value);
            Decode(ConditionKey(value)) == if |w| > 0 && w[0] == '~' then Regex(w[1..]) else Exact(w)
  {
    var w, k := Wanted(value), ConditionKey(value);
    if w in SPECIAL_PARAMETERS {
      assert k[0] == '\\' && k[1..] == w;
      assert Unquote(k) == k;
      assert k !in SPECIAL_PARAMETERS;
    } else {
      assert k == "\"" + w + "\"";
      assert k[1..|k| - 1] == w;
    }
  }

  /** Whether a decoded key accepts a value. */
  predicate Accepts(e: Entry, x: string, regex: (string, string) -> bool) {
    match e
    case Exact(t) => SameText(t, x)
    case Regex(t) => regex(t, x)
    case _ => false
  }

  lemma TwoParameterSelect(key: string, hit: string, miss: string, x: string, regex: (string, string) -> bool)
    requires Decode(key).Exact? || Decode(key).Regex?
    ensures Select([Parameter(key, hit), Parameter("default", miss)], x, regex) ==
            if Accepts(Decode(key), x, regex) then hit else miss
  {
    var ps := [Parameter(key, hit), Parameter("default", miss)];
    assert ps[1..] == [ps[1]] && ps[1..][1..] == [];
    assert Decode(ps[1].value) == DefaultEntry;
    assert ExactResult(ps[1..], x) == None && RegexResult(ps[1..], x, regex) == None;
    assert DefaultResult(ps[1..]) == miss;
  }

  /** A condition's map yields the success value exactly when the condition holds. */
  lemma ConditionSelects(c: Condition, success: string, q: Request)
    requires ValidCondition(c)
    ensures Select(ConditionParameters(c.value, success), NativeValue(q, Subject(c)), q.regex) ==
            if Holds(c, q) then success else "0"
  {
    ConditionKeyDecodes(c.value);
    SubjectHolds(c, q);
    hide NativeValue, Subject, Inspected, Decode, ConditionKey;
    var k, x := ConditionKey(c.value), Inspected(c, q);
    if Negated(c.value) {
      TwoParameterSelect(k, "0", success, x, q.regex);
    } else {
      TwoParameterSelect(k, success, "0", x, q.regex);
    }
  }

  ghost predicate MatchDefined(e: Env, st: Settings, mi: nat, i: nat, cs: seq<Condition>) {
    forall j :: 0 <= j < |cs| ==> var m := ConditionMap(st, mi, i, cs, j); e(m.variable) == MapDef(m)
  }

  lemma NativeMapValue(e: Env, q: Request, m: Map, depth: nat)
    requires KeepsNative(e) && e(m.variable) == MapDef(m) && NativeVariable(m.source) && depth >= 2
    ensures Value(e, q, m.variable, depth) ==
            Expand(e, q, Select(m.parameters, NativeValue(q, m.source), q.regex), depth - 1)
  {
    hide NativeValue;
    ExpandNative(e, q, m.source, depth - 1);
  }

  lemma ConditionStep(e: Env, q: Request, m: Map, c: Condition, success: string, depth: nat)
    requires KeepsNative(e) && e(m.variable) == MapDef(m) && ValidCondition(c) && depth >= 2
    requires m.source == Subject(c) && m.parameters == ConditionParameters(c.value, success)
    ensures Value(e, q, m.variable, depth) == if Holds(c, q) then Expand(e, q, success, depth - 1) else Some("0")
  {
    SubjectIsNative(c);
    NativeMapValue(e, q, m, depth);
    ConditionSelects(c, success, q);
    ExpandLiteral(e, q, "0", depth - 1);
  }

  lemma ConditionLink(e: Env, q: Request, m: Map, c: Condition, next: string, depth: nat)
    requires KeepsNative(e) && e(m.variable) == MapDef(m) && ValidCondition(c) && depth >= 2
    requires m.source == Subject(c) && m.parameters == ConditionParameters(c.value, next) && IsVariable(next)
    ensures Value(e, q, m.variable, depth) == if Holds(c, q) then Value(e, q, next, depth - 1) else Some("0")
  {
    hide Holds, ConditionParameters, ValidCondition, KeepsNative, Value, Expand;
    ConditionStep(e, q, m, c, next, depth);
    ExpandSingle(e, q, next, depth - 1);
  }

  lemma ConditionEnd(e: Env, q: Request, m: Map, c: Condition, depth: nat)
    requires KeepsNative(e) && e(m.variable) == MapDef(m) && ValidCondition(c) && depth >= 2
    requires m.source == Subject(c) && m.parameters == ConditionParameters(c.value, "1")
    ensures Value(e, q, m.variable, depth) == Some(if Holds(c, q) then "1" else "0")
  {
    hide Holds, ConditionParameters, ValidCondition, KeepsNative, Value;
    ConditionStep(e, q, m, c, "1", depth);
    ExpandLiteral(e, q, "1", depth - 1);
  }

  lemma VariableFacts(nm: Namer, k: Key)
    requires Readable(nm)
    ensures IsVariable(nm.variable(k)) && Routing(nm.variable(k))
  {
  }

  /** The chained condition variables of one match evaluate to 1 exactly when every
      condition from `j` on holds, and to 0 otherwise. */
  lemma {:induction false} ConditionChain(e: Env, q: Request, st: Settings, mi: nat, i: nat,
                                          cs: seq<Condition>, j: nat, depth: nat)
    requires KeepsNative(e) && Readable(st.namer) && MatchDefined(e, st, mi, i, cs)
    requires forall c :: c in cs ==> ValidCondition(c)
    requires j < |cs| && depth >= |cs| - j + 1
    ensures Value(e, q, st.namer.variable(Cond(mi, i, j)), depth) == Some(if AllHold(cs, j, q) then "1" else "0")
    decreases |cs| - j
  {
    hide Value, Expand, Holds, ConditionParameters;
    var m := ConditionMap(st, mi, i, cs, j);
    VariableFacts(st.namer, Cond(mi, i, j));
    AllHoldStep(cs, j, q);
    if j + 1 < |cs| {
      var next := st.namer.variable(Cond(mi, i, j + 1));
      VariableFacts(st.namer, Cond(mi, i, j + 1));
      ConditionLink(e, q, m, cs[j], next, depth);
      ConditionChain(e, q, st, mi, i, cs, j + 1, depth - 1);
    } else {
      ConditionEnd(e, q, m, cs[j], depth);
    }
  }

  lemma AllHoldStep(cs: seq<Condition>, j: nat, q: Request)
    requires j < |cs|
    ensures AllHold(cs, j, q) <==> Holds(cs[j], q) && AllHold(cs, j + 1, q)
  {
  }

  // ---- the main map ----

  /** One digit per match from `i` on: whether its conditions all hold. */
  function Digits(ms: seq<Match>, i: nat, q: Request): (s: string)
    requires i <= |ms|
    ensures |s| == |ms| - i
    ensures forall k :: 0 <= k < |s| ==> s[k] == if AllHold(ms[i + k].conditions, 0, q) then '1' else '0'
    decreases |ms| - i
  {
    if i == |ms| then ""
    else [if AllHold(ms[i].conditions, 0, q) then '1' else '0'] + Digits(ms, i + 1, q)
  }

  /** The depth that evaluating a route's matches needs. */
  function LongestChain(ms: seq<Match>): (n: nat)
    ensures forall m :: m in ms ==> |m.conditions| <= n
  {
    if |ms| == 0 then 0
    else
      var n := LongestChain(ms[1..]);
      if |ms[0].conditions| > n then |ms[0].conditions| else n
  }

  ghost predicate MatchesDefined(e: Env, st: Settings, mi: nat, ms: seq<Match>) {
    forall i :: 0 <= i < |ms| ==> MatchDefined(e, st, mi, i, ms[i].conditions)
  }

  lemma {:induction false} MainSourceValue(e: Env, q: Request, st: Settings, mi: nat, ms: seq<Match>, i: nat, depth: nat)
    requires KeepsNative(e) && Readable(st.namer) && MatchesDefined(e, st, mi, ms)
    requires forall m :: m in ms ==> ValidMatch(m)
    requires i <= |ms| && depth >= LongestChain(ms) + 1
    ensures Expand(e, q, MainSource(st, mi, |ms|, i), depth) == Some(Digits(ms, i, q))
    decreases |ms| - i
  {
    hide Value, Expand, KeepsNative, ValidCondition, AllHold, LongestChain, MatchDefined, Readable, IsVariable;
    if i == |ms| {
      ExpandLiteral(e, q, "", depth);
    } else {
      var v, rest := st.namer.variable(Cond(mi, i, 0)), MainSource(st, mi, |ms|, i + 1);
      VariableFacts(st.namer, Cond(mi, i, 0));
      MainSourceHead(st, mi, |ms|, i + 1);
      ExpandVariable(e, q, v, rest, depth);
      assert ValidMatch(ms[i]);
      ConditionChain(e, q, st, mi, i, ms[i].conditions, 0, depth);
      MainSourceValue(e, q, st, mi, ms, i + 1, depth);
    }
  }

  lemma MainSourceHead(st: Settings, mi: nat, n: nat, i: nat)
    requires Readable(st.namer) && i <= n
    ensures |MainSource(st, mi, n, i)| == 0 || MainSource(st, mi, n, i)[0] == '$'
  {
    if i < n {
      assert IsVariable(st.namer.variable(Cond(mi, i, 0)));
    }
  }

  lemma PatternDecodes(i: nat)
    ensures Decode("~^" + Zeros(i) + "1") == Regex("^" + (Zeros(i) + "1"))
    ensures AllDigits(Zeros(i) + "1")
  {
    var raw := "~^" + Zeros(i) + "1";
    assert raw[0] == '~';
    assert raw[1..] == "^" + (Zeros(i) + "1");
    forall s | s in SPECIAL_PARAMETERS ensures s != raw { assert s[0] != '~'; }
  }

  /** Given that no match before `i` holds, pattern `i` matches the digits exactly when
      match `i` is the first that holds. */
  lemma PatternMatches(ms: seq<Match>, i: nat, q: Request)
    requires i < |ms| && FirstMatch(ms, 0, q) >= i
    ensures Zeros(i) + "1" <= Digits(ms, 0, q) <==> FirstMatch(ms, 0, q) == i
  {
    var d, z := Digits(ms, 0, q), Zeros(i) + "1";
    if AllHold(ms[i].conditions, 0, q) {
      assert FirstMatch(ms, 0, q) == i;
      assert forall k :: 0 <= k < |z| ==> z[k] == d[k];
      assert d[..|z|] == z;
    } else {
      assert z[i] == '1' && d[i] == '0';
    }
  }

  lemma {:induction false} FirstPattern(st: Settings, ms: seq<Match>, mi: nat, sc: nat, i: nat, q: Request, rest: seq<Parameter>)
    requires MatchesAnchoredDigits(q) && i <= |ms| && FirstMatch(ms, 0, q) >= i
    requires |rest| == 1 && Decode(rest[0].value).DefaultEntry?
    ensures var ps := MainParameters(st, ms, mi, sc)[i..] + rest;
            var k := FirstMatch(ms, 0, q);
            && ExactResult(ps, Digits(ms, 0, q)) == None
            && RegexResult(ps, Digits(ms, 0, q), q.regex) ==
               (if k < |ms| then Some(MatchDestination(st, ms, k, mi, sc)) else None)
            && DefaultResult(ps) == rest[0].result
    decreases |ms| - i
  {
    hide MatchDestination, Zeros, Decode, FirstMatch, Digits, AllDigits;
    var ps := MainParameters(st, ms, mi, sc)[i..] + rest;
    var d := Digits(ms, 0, q);
    if i == |ms| {
      assert ps == rest && rest[1..] == [];
    } else {
      assert ps[0] == MainParameter(st, ms, i, mi, sc);
      assert ps[1..] == MainParameters(st, ms, mi, sc)[i + 1..] + rest;
      PatternDecodes(i);
      PatternMatches(ms, i, q);
      assert q.regex("^" + (Zeros(i) + "1"), d) <==> Zeros(i) + "1" <= d;
      if FirstMatch(ms, 0, q) == i {
        NoExactInMain(st, ms, mi, sc, i, rest, d);
      } else {
        FirstPattern(st, ms, mi, sc, i + 1, q, rest);
      }
    }
  }

  lemma {:induction false} NoExactInMain(st: Settings, ms: seq<Match>, mi: nat, sc: nat, i: nat, rest: seq<Parameter>, x: string)
    requires i <= |ms| && |rest| == 1 && Decode(rest[0].value).DefaultEntry?
    ensures ExactResult(MainParameters(st, ms, mi, sc)[i..] + rest, x) == None
    ensures DefaultResult(MainParameters(st, ms, mi, sc)[i..] + rest) == rest[0].result
    decreases |ms| - i
  {
    var ps := MainParameters(st, ms, mi, sc)[i..] + rest;
    if i == |ms| {
      assert ps == rest && rest[1..] == [];
    } else {
      assert ps[0] == MainParameter(st, ms, i, mi, sc);
      assert ps[1..] == MainParameters(st, ms, mi, sc)[i + 1..] + rest;
      PatternDecodes(i);
      NoExactInMain(st, ms, mi, sc, i + 1, rest, x);
    }
  }

  /** The string the main map yields for a request. */
  function Destination(st: Settings, r: Route, mi: nat, sc: nat, q: Request): string {
    var k := FirstMatch(r.matches, 0, q);
    if k < |r.matches| then MatchDestination(st, r.matches, k, mi, sc) else DefaultDestination(st, r, mi, sc)
  }

  lemma MainSelects(st: Settings, r: Route, mi: nat, sc: nat, q: Request)
    requires MatchesAnchoredDigits(q)
    ensures Select(MainMap(st, r, mi, sc).parameters, Digits(r.matches, 0, q), q.regex) == Destination(st, r, mi, sc, q)
  {
    var rest := [Parameter("default", DefaultDestination(st, r, mi, sc))];
    assert MainParameters(st, r.matches, mi, sc)[0..] == MainParameters(st, r.matches, mi, sc);
    FirstPattern(st, r.matches, mi, sc, 0, q, rest);
  }

  // ---- a whole route ----

  /** The group of splits that takes the request in route `r`; it is empty when the
      request is not split. */
  function RequestGroup(st: Settings, r: Route, sc: nat, q: Request): (g: Group)
    requires ValidRoute(r)
    ensures |g.splits| > 0 ==> ValidSplits(g.splits)
  {
    var k := FirstMatch(r.matches, 0, q);
    assert k < |r.matches| ==> ValidMatch(r.matches[k]);
    Group(GroupIndex(st, r.matches, k, sc), if k < |r.matches| then r.matches[k].splits else r.splits)
  }

  /** The internal location that stands for the action route `r` asks for. */
  function RequestSpot(st: Settings, r: Route, mi: nat, sc: nat, q: Request): Spot
    requires ValidRoute(r)
  {
    var k, g := FirstMatch(r.matches, 0, q), RequestGroup(st, r, sc, q);
    if |g.splits| > 0 then SplitSpot(g.index, SelectedSplit(st, g, q))
    else if k < |r.matches| then MatchSpot(mi, k)
    else DefaultSpot(mi)
  }

  /** The action route `r` asks for. */
  function RequestAction(st: Settings, r: Route, sc: nat, q: Request): Action
    requires ValidRoute(r)
  {
    var k, g := FirstMatch(r.matches, 0, q), RequestGroup(st, r, sc, q);
    if |g.splits| > 0 then g.splits[SelectedSplit(st, g, q)].action
    else if k < |r.matches| then r.matches[k].action
    else r.action
  }

  ghost predicate RouteDefined(e: Env, st: Settings, r: Route, mi: nat, sc: nat) {
    && (|r.matches| > 0 ==> MatchesDefined(e, st, mi, r.matches) && e(st.namer.variable(Main(mi))) == MapDef(MainMap(st, r, mi, sc)))
    && (forall i :: 0 <= i < |r.matches| && |r.matches[i].splits| > 0 ==>
          GroupDefined(e, st, Group(GroupIndex(st, r.matches, i, sc), r.matches[i].splits)))
    && (|r.splits| > 0 ==> GroupDefined(e, st, Group(GroupIndex(st, r.matches, |r.matches|, sc), r.splits)))
  }

  lemma MapValue(e: Env, q: Request, m: Map, x: string, depth: nat)
    requires KeepsNative(e) && e(m.variable) == MapDef(m) && depth >= 1
    requires Expand(e, q, m.source, depth - 1) == Some(x)
    ensures Value(e, q, m.variable, depth) == Expand(e, q, Select(m.parameters, x, q.regex), depth - 1)
  {
  }

  lemma MainValue(e: Env, q: Request, st: Settings, r: Route, mi: nat, sc: nat, depth: nat)
    requires KeepsNative(e) && Readable(st.namer) && MatchesAnchoredDigits(q)
    requires ValidRoute(r) && |r.matches| > 0 && RouteDefined(e, st, r, mi, sc)
    requires depth >= LongestChain(r.matches) + 2
    ensures Value(e, q, st.namer.variable(Main(mi)), depth) == Expand(e, q, Destination(st, r, mi, sc, q), depth - 1)
  {
    hide Value, Expand, KeepsNative, MainSource, Digits, Destination, Select, MatchesDefined, GroupDefined;
    VariableFacts(st.namer, Main(mi));
    MainSourceValue(e, q, st, mi, r.matches, 0, depth - 1);
    MainSelects(st, r, mi, sc, q);
    MapValue(e, q, MainMap(st, r, mi, sc), Digits(r.matches, 0, q), depth);
  }

  lemma DestinationLeads(e: Env, q: Request, st: Settings, r: Route, mi: nat, sc: nat, depth: nat)
    requires KeepsNative(e) && Readable(st.namer)
    requires ValidRoute(r) && |r.matches| > 0 && RouteDefined(e, st, r, mi, sc) && depth >= 3
    ensures Expand(e, q, Destination(st, r, mi, sc, q), depth) == Some(st.namer.path(RequestSpot(st, r, mi, sc, q)))
  {
    hide Value, Expand, KeepsNative, GroupDefined, ValidSplits, Destination, RequestSpot, RequestGroup, RouteDefined, ValidRoute, GroupDestination, SelectedSplit;
    var g := RequestGroup(st, r, sc, q);
    DestinationIs(st, r, mi, sc, q);
    if |g.splits| > 0 {
      RequestGroupDefined(e, st, r, mi, sc, q);
      GroupCorrect(e, q, st, g, depth);
    } else {
      var s := RequestSpot(st, r, mi, sc, q);
      assert Lacks(st.namer.path(s), '$');
      ExpandLiteral(e, q, st.namer.path(s), depth);
    }
  }

  lemma DestinationIs(st: Settings, r: Route, mi: nat, sc: nat, q: Request)
    requires ValidRoute(r)
    ensures var g, s := RequestGroup(st, r, sc, q), RequestSpot(st, r, mi, sc, q);
            if |g.splits| > 0 then Destination(st, r, mi, sc, q) == GroupDestination(st, g) && ValidSplits(g.splits) && s == SplitSpot(g.index, SelectedSplit(st, g, q))
            else Destination(st, r, mi, sc, q) == st.namer.path(s)
  {
    hide GroupDestination, SelectedSplit, FirstMatch, GroupIndex;
    var k := FirstMatch(r.matches, 0, q);
    assert k < |r.matches| ==> r.matches[k] in r.matches && ValidMatch(r.matches[k]);
  }

  lemma RequestGroupDefined(e: Env, st: Settings, r: Route, mi: nat, sc: nat, q: Request)
    requires ValidRoute(r) && RouteDefined(e, st, r, mi, sc) && |RequestGroup(st, r, sc, q).splits| > 0
    ensures GroupDefined(e, st, RequestGroup(st, r, sc, q))
  {
    hide GroupDefined, FirstMatch, GroupIndex, MatchesDefined, MainMap;
  }

  lemma MatchesRouteCorrect(e: Env, q: Request, st: Settings, r: Route, mi: nat, sc: nat, depth: nat)
    requires KeepsNative(e) && Readable(st.namer) && MatchesAnchoredDigits(q)
    requires ValidRoute(r) && |r.matches| > 0 && RouteDefined(e, st, r, mi, sc)
    requires depth >= LongestChain(r.matches) + 4
    ensures Expand(e, q, st.namer.variable(Main(mi)), depth) == Some(st.namer.path(RequestSpot(st, r, mi, sc, q)))
  {
    hide Value, Expand, RequestSpot, Destination, ValidRoute, RouteDefined;
    VariableFacts(st.namer, Main(mi));
    ExpandSingle(e, q, st.namer.variable(Main(mi)), depth);
    MainValue(e, q, st, r, mi, sc, depth);
    DestinationLeads(e, q, st, r, mi, sc, depth - 1);
  }

  /** Compilation preserves meaning: for every request, following the variable that a route
      with matches or splits redirects to ends at the internal location of the first match
      whose conditions all hold, or of the default, and there at the split that the request
      falls in. */
  lemma RouteCorrect(e: Env, q: Request, st: Settings, r: Route, mi: nat, sc: nat, depth: nat)
    requires KeepsNative(e) && Readable(st.namer) && MatchesAnchoredDigits(q)
    requires ValidRoute(r) && RouteDefined(e, st, r, mi, sc)
    requires depth >= LongestChain(r.matches) + 4
    ensures forall d :: d in RouteRedirect(st, r, mi, sc) ==>
              Expand(e, q, d.destination, depth) == Some(st.namer.path(RequestSpot(st, r, mi, sc, q)))
  {
    if |r.matches| > 0 {
      MatchesRouteCorrect(e, q, st, r, mi, sc, depth);
    } else if |r.splits| > 0 {
      GroupCorrect(e, q, st, Group(sc, r.splits), depth);
    }
  }
}
