/** Tiered rate limits: the `map` blocks that pick, for each request, the zone whose tier the
    request belongs to, and the check that a context has at most one default tier. */
module RateLimitTiers {
  import opened Text
  import opened Nginx

  /** A `limit_req_zone` with its tier; a zone without a condition has no group variable. */
  datatype Zone = Zone(
    name: string,
    groupVariable: string,
    groupSource: string,
    groupValue: string,
    groupDefault: bool,
    policyValue: string,
    policyResult: string)

  // ---- group maps ----

  function TierParameters(z: Zone): seq<Parameter> {
    [Parameter(z.groupValue, z.policyValue)] + if z.groupDefault then [Parameter("default", z.policyValue)] else []
  }

  /** The zones of one group variable. */
  function Tiers(zones: seq<Zone>, variable: string): seq<Zone> {
    if |zones| == 0 then []
    else
      var last, init := zones[|zones| - 1], zones[..|zones| - 1];
      if last.groupVariable == variable then Tiers(init, variable) + [last] else Tiers(init, variable)
  }

  /** Later zones come first. */
  function Entries(tiers: seq<Zone>): seq<Parameter> {
    if |tiers| == 0 then [] else TierParameters(tiers[|tiers| - 1]) + Entries(tiers[..|tiers| - 1])
  }

  function GroupMap(tiers: seq<Zone>, variable: string): Map {
    Map(if |tiers| == 0 then "" else tiers[|tiers| - 1].groupSource, variable, Entries(tiers))
  }

  function Variables(zones: seq<Zone>): set<string> {
    set z | z in zones && z.groupVariable != "" :: z.groupVariable
  }

  function GroupMaps(zones: seq<Zone>): map<string, Map> {
    map v | v in Variables(zones) :: GroupMap(Tiers(zones, v), v)
  }

  lemma {:induction false} TierMember(zones: seq<Zone>, variable: string, z: Zone)
    ensures z in Tiers(zones, variable) <==> z in zones && z.groupVariable == variable
  {
    if |zones| > 0 {
      TierMember(zones[..|zones| - 1], variable, z);
      assert zones == zones[..|zones| - 1] + [zones[|zones| - 1]];
    }
  }

  /** What one more zone does to the map of a variable. */
  lemma NextGroupMap(zones: seq<Zone>, z: Zone, v: string)
    ensures GroupMap(Tiers(zones + [z], v), v) ==
            if z.groupVariable == v then Map(z.groupSource, v, TierParameters(z) + Entries(Tiers(zones, v)))
            else GroupMap(Tiers(zones, v), v)
  {
    hide TierParameters;
    var tiers := Tiers(zones, v);
    assert (zones + [z])[..|zones|] == zones;
    assert Tiers(zones + [z], v) == if z.groupVariable == v then tiers + [z] else tiers;
    assert (tiers + [z])[..|tiers|] == tiers;
  }

  lemma NextVariables(zones: seq<Zone>, z: Zone)
    ensures Variables(zones + [z]) == Variables(zones) + if z.groupVariable == "" then {} else {z.groupVariable}
  {
    assert forall y :: y in zones + [z] <==> y in zones || y == z;
  }

  lemma NoTiers(zones: seq<Zone>, v: string)
    requires v !in Variables(zones) && v != ""
    ensures Entries(Tiers(zones, v)) == []
  {
    var tiers := Tiers(zones, v);
    assert |tiers| > 0 ==> tiers[0] in tiers;
    if |tiers| > 0 {
      TierMember(zones, v, tiers[0]);
    }
  }

  method GenerateGroupMaps(zones: seq<Zone>) returns (m: map<string, Map>)
    ensures m == GroupMaps(zones)
  {
    hide Entries, TierParameters, GroupMap, Tiers;
    m := map[];
    var i := 0;
    while i < |zones|
      invariant 0 <= i <= |zones|
      invariant m.Keys == Variables(zones[..i])
      invariant forall v :: v in m ==> m[v] == GroupMap(Tiers(zones[..i], v), v)
    {
      var z := zones[i];
      assert zones[..i + 1] == zones[..i] + [z];
      NextVariables(zones[..i], z);
      ghost var before := m;
      if z.groupVariable != "" {
        var parameters := [Parameter(z.groupValue, z.policyValue)];
        if z.groupDefault {
          parameters := parameters + [Parameter("default", z.policyValue)];
        }
        OneTier(z);
        assert parameters == TierParameters(z);
        if z.groupVariable in m {
          parameters := parameters + m[z.groupVariable].parameters;
          EntriesOf(Tiers(zones[..i], z.groupVariable), z.groupVariable);
        } else {
          NoTiers(zones[..i], z.groupVariable);
          assert parameters + [] == parameters;
        }
        m := m[z.groupVariable := Map(z.groupSource, z.groupVariable, parameters)];
      }
      i := i + 1;
      forall v | v in m
        ensures m[v] == GroupMap(Tiers(zones[..i], v), v)
      {
        NextGroupMap(zones[..i - 1], z, v);
      }
    }
    assert zones[..i] == zones;
  }

  lemma OneTier(z: Zone)
    ensures TierParameters(z) == if z.groupDefault then [Parameter(z.groupValue, z.policyValue)] + [Parameter("default", z.policyValue)]
                                 else [Parameter(z.groupValue, z.policyValue)]
  {
  }

  lemma EntriesOf(tiers: seq<Zone>, v: string)
    ensures GroupMap(tiers, v).parameters == Entries(tiers)
  {
  }

  // ---- conflicting defaults ----

  function Defaults(params: seq<Parameter>): nat {
    if |params| == 0 then 0 else (if params[0].value == "default" then 1 else 0) + Defaults(params[1..])
  }

  method HasDuplicateDefaults(m: Map) returns (r: bool)
    ensures r <==> Defaults(m.parameters) > 1
  {
    var count, i := 0, 0;
    while i < |m.parameters|
      invariant 0 <= i <= |m.parameters|
      invariant count + Defaults(m.parameters[i..]) == Defaults(m.parameters)
    {
      assert m.parameters[i..][1..] == m.parameters[i + 1..];
      if m.parameters[i].value == "default" {
        count := count + 1;
      }
      i := i + 1;
    }
    r := count > 1;
  }

  /** Collects the group maps in no particular order, or gives up at a conflict. */
  method CollectGroupMaps(zones: seq<Zone>) returns (r: Option<seq<Map>>)
    ensures r.None? <==> exists v :: v in GroupMaps(zones) && Defaults(GroupMaps(zones)[v].parameters) > 1
    ensures r.Some? ==> Listing(r.value, GroupMaps(zones))
  {
    var m := GenerateGroupMaps(zones);
    hide GroupMaps, Defaults;
    var left, maps := m.Keys, [];
    while left != {}
      invariant left <= m.Keys
      invariant forall v :: v in m && v !in left ==> Defaults(m[v].parameters) <= 1
      invariant Listing(maps, map v | v in m && v !in left :: m[v])
      decreases |left|
    {
      var v :| v in left;
      var clash := HasDuplicateDefaults(m[v]);
      if clash {
        return None;
      }
      ghost var before := map u | u in m && u !in left :: m[u];
      left := left - {v};
      ListingAppend(maps, before, v, m[v]);
      assert (map u | u in m && u !in left :: m[u]) == before[v := m[v]];
      maps := maps + [m[v]];
    }
    assert (map v | v in m && v !in left :: m[v]) == m;
    r := Some(maps);
  }

  /** The list holds each map of `m` once. */
  ghost predicate Listing(maps: seq<Map>, m: map<string, Map>) {
    && |maps| == |m|
    && forall v :: v in m ==> m[v] in maps
  }

  lemma ListingAppend(maps: seq<Map>, m: map<string, Map>, v: string, x: Map)
    requires Listing(maps, m) && v !in m
    ensures Listing(maps + [x], m[v := x])
  {
    assert m[v := x].Keys == m.Keys + {v};
    assert |m.Keys| == |m| && |m[v := x].Keys| == |m[v := x]|;
    assert forall u :: u in m ==> m[u] in maps;
    assert x in maps + [x];
  }

  /** How many `default` entries a tier writes, as the code counts them. */
  function Written(z: Zone): nat { (if z.groupValue == "default" then 1 else 0) + (if z.groupDefault then 1 else 0) }

  /** How many NGINX reads: a quoted word is a `default` too. */
  function Seen(z: Zone): nat { (if Decode(z.groupValue).DefaultEntry? then 1 else 0) + (if z.groupDefault then 1 else 0) }

  function Total(tiers: seq<Zone>, count: Zone -> nat): nat {
    if |tiers| == 0 then 0 else count(tiers[|tiers| - 1]) + Total(tiers[..|tiers| - 1], count)
  }

  /** Two tiers of one group both count, or one does so twice over. */
  predicate Twice(tiers: seq<Zone>, count: Zone -> nat) {
    || (exists i, j :: 0 <= i < j < |tiers| && count(tiers[i]) > 0 && count(tiers[j]) > 0)
    || (exists i :: 0 <= i < |tiers| && count(tiers[i]) > 1)
  }

  lemma {:induction false} TotalAboveZero(tiers: seq<Zone>, count: Zone -> nat)
    ensures Total(tiers, count) > 0 <==> exists i :: 0 <= i < |tiers| && count(tiers[i]) > 0
  {
    if |tiers| > 0 {
      var init := tiers[..|tiers| - 1];
      TotalAboveZero(init, count);
      assert forall i :: 0 <= i < |init| ==> tiers[i] == init[i];
      if i :| 0 <= i < |init| && count(init[i]) > 0 {
        assert count(tiers[i]) > 0;
      }
      if i :| 0 <= i < |tiers| && count(tiers[i]) > 0 {
        assert i < |init| ==> count(init[i]) > 0;
      }
    }
  }

  lemma TwiceStep(tiers: seq<Zone>, count: Zone -> nat)
    requires |tiers| > 0
    ensures var init, last := tiers[..|tiers| - 1], count(tiers[|tiers| - 1]);
            Twice(tiers, count) <==> Twice(init, count) || last > 1 || (last > 0 && exists i :: 0 <= i < |init| && count(init[i]) > 0)
  {
    var init := tiers[..|tiers| - 1];
    assert forall i :: 0 <= i < |init| ==> tiers[i] == init[i];
    if i, j :| 0 <= i < j < |init| && count(init[i]) > 0 && count(init[j]) > 0 {
      assert count(tiers[i]) > 0 && count(tiers[j]) > 0;
    }
    if i, j :| 0 <= i < j < |tiers| && count(tiers[i]) > 0 && count(tiers[j]) > 0 {
      assert count(init[i]) > 0;
      assert j < |init| ==> count(init[j]) > 0;
    }
    if i :| 0 <= i < |init| && count(init[i]) > 1 {
      assert count(tiers[i]) > 1;
    }
    if i :| 0 <= i < |tiers| && count(tiers[i]) > 1 {
      assert i < |init| ==> count(init[i]) > 1;
    }
    if i :| 0 <= i < |init| && count(init[i]) > 0 {
      assert count(tiers[i]) > 0;
    }
  }

  lemma {:induction false} TotalAboveOne(tiers: seq<Zone>, count: Zone -> nat)
    ensures Total(tiers, count) > 1 <==> Twice(tiers, count)
  {
    if |tiers| > 0 {
      TotalAboveOne(tiers[..|tiers| - 1], count);
      TotalAboveZero(tiers[..|tiers| - 1], count);
      TwiceStep(tiers, count);
      hide Twice;
    }
  }

  predicate Conflicting(tiers: seq<Zone>) { Twice(tiers, Written) }

  lemma DefaultsOfTier(z: Zone, rest: seq<Parameter>)
    ensures Defaults(TierParameters(z) + rest) == Written(z) + Defaults(rest)
  {
    var es := TierParameters(z) + rest;
    if z.groupDefault {
      assert es[1..][1..] == rest;
    } else {
      assert es[1..] == rest;
    }
  }

  lemma {:induction false} DefaultsOfEntries(tiers: seq<Zone>)
    ensures Defaults(Entries(tiers)) == Total(tiers, Written)
  {
    if |tiers| > 0 {
      DefaultsOfEntries(tiers[..|tiers| - 1]);
      DefaultsOfTier(tiers[|tiers| - 1], Entries(tiers[..|tiers| - 1]));
    }
  }

  /** A context is rejected exactly when two tiers of one of its groups write a default, or one
      does so twice over. */
  lemma RejectedExactly(zones: seq<Zone>)
    ensures (exists v :: v in GroupMaps(zones) && Defaults(GroupMaps(zones)[v].parameters) > 1) <==>
            (exists v :: v in Variables(zones) && Conflicting(Tiers(zones, v)))
  {
    hide Entries, Tiers, Twice, Defaults, Variables;
    forall v | v in GroupMaps(zones)
      ensures Defaults(GroupMaps(zones)[v].parameters) > 1 <==> Conflicting(Tiers(zones, v))
    {
      DefaultsOfEntries(Tiers(zones, v));
      TotalAboveOne(Tiers(zones, v), Written);
    }
    hide GroupMap;
    if v :| v in Variables(zones) && Conflicting(Tiers(zones, v)) {
      assert v in GroupMaps(zones);
    }
  }

  // ---- and what NGINX refuses ----

  function NginxDefaults(params: seq<Parameter>): nat {
    if |params| == 0 then 0 else (if Decode(params[0].value).DefaultEntry? then 1 else 0) + NginxDefaults(params[1..])
  }

  lemma NginxDefaultsOfTier(z: Zone, rest: seq<Parameter>)
    ensures NginxDefaults(TierParameters(z) + rest) == Seen(z) + NginxDefaults(rest)
  {
    var es := TierParameters(z) + rest;
    if z.groupDefault {
      assert es[1..][1..] == rest && Decode(es[1..][0].value) == DefaultEntry;
    } else {
      assert es[1..] == rest;
    }
  }

  lemma {:induction false} NginxDefaultsOfEntries(tiers: seq<Zone>)
    ensures NginxDefaults(Entries(tiers)) == Total(tiers, Seen)
  {
    if |tiers| > 0 {
      NginxDefaultsOfEntries(tiers[..|tiers| - 1]);
      NginxDefaultsOfTier(tiers[|tiers| - 1], Entries(tiers[..|tiers| - 1]));
    }
  }

  /** The value of a condition on a variable that is compared with the word `default`. */
  const QUOTED_DEFAULT := "\"default\""

  lemma DefaultTexts(v: string)
    ensures Decode(v).DefaultEntry? <==> v == "default" || v == QUOTED_DEFAULT
  {
    if |v| >= 2 && v[0] == '"' && v[|v| - 1] == '"' {
      assert v == "\"" + v[1..|v| - 1] + "\"";
      assert QUOTED_DEFAULT == "\"" + "default" + "\"";
      assert QUOTED_DEFAULT[1..|QUOTED_DEFAULT| - 1] == "default";
    }
  }

  /** A tier that is compared with the word `default` beside another default. */
  predicate QuotedClash(tiers: seq<Zone>) {
    exists i :: 0 <= i < |tiers| && tiers[i].groupValue == QUOTED_DEFAULT &&
      (tiers[i].groupDefault || exists j :: 0 <= j < |tiers| && j != i && Seen(tiers[j]) > 0)
  }

  lemma WrittenIsSeen(z: Zone)
    ensures Written(z) <= Seen(z)
    ensures Written(z) < Seen(z) <==> z.groupValue == QUOTED_DEFAULT
  {
    DefaultTexts(z.groupValue);
    assert |"default"| != |QUOTED_DEFAULT|;
  }

  /** The code rejects a group exactly when NGINX would refuse its map for a second default,
      except when a condition compares with the word `default` beside one other default: that
      is accepted, and NGINX refuses it. */
  lemma RejectionAgrees(tiers: seq<Zone>)
    ensures (Defaults(Entries(tiers)) > 1 <==> NginxDefaults(Entries(tiers)) > 1) <==> (Conflicting(tiers) || !QuotedClash(tiers))
  {
    DefaultsOfEntries(tiers);
    NginxDefaultsOfEntries(tiers);
    TotalAboveOne(tiers, Written);
    TotalAboveOne(tiers, Seen);
    forall i | 0 <= i < |tiers|
      ensures Written(tiers[i]) <= Seen(tiers[i]) && (Written(tiers[i]) < Seen(tiers[i]) <==> tiers[i].groupValue == QUOTED_DEFAULT)
    {
      WrittenIsSeen(tiers[i]);
    }
    SeenOne(tiers);
    hide Entries, Defaults, NginxDefaults, Total, Decode, QUOTED_DEFAULT;
    if QuotedClash(tiers) {
      ClashIsSeen(tiers);
    }
    if Twice(tiers, Written) {
      WrittenTwice(tiers);
    }
    if Twice(tiers, Seen) && !Twice(tiers, Written) {
      SeenTwice(tiers);
    }
  }

  lemma SeenOne(tiers: seq<Zone>)
    ensures forall i :: 0 <= i < |tiers| && tiers[i].groupDefault ==> Seen(tiers[i]) > 0
  {
  }

  lemma ClashIsSeen(tiers: seq<Zone>)
    requires QuotedClash(tiers)
    ensures Twice(tiers, Seen)
  {
    var i :| 0 <= i < |tiers| && tiers[i].groupValue == QUOTED_DEFAULT &&
      (tiers[i].groupDefault || exists j :: 0 <= j < |tiers| && j != i && Seen(tiers[j]) > 0);
    DefaultTexts(tiers[i].groupValue);
    hide QUOTED_DEFAULT, Decode;
    assert Seen(tiers[i]) > 0;
    if !tiers[i].groupDefault {
      var j :| 0 <= j < |tiers| && j != i && Seen(tiers[j]) > 0;
      if j < i {
        assert Seen(tiers[j]) > 0 && Seen(tiers[i]) > 0;
      }
    } else {
      assert Seen(tiers[i]) > 1;
    }
  }

  lemma WrittenTwice(tiers: seq<Zone>)
    requires Twice(tiers, Written) && forall i :: 0 <= i < |tiers| ==> Written(tiers[i]) <= Seen(tiers[i])
    ensures Twice(tiers, Seen)
  {
    hide Written, Seen;
    if i, j :| 0 <= i < j < |tiers| && Written(tiers[i]) > 0 && Written(tiers[j]) > 0 {
      assert Seen(tiers[i]) > 0 && Seen(tiers[j]) > 0;
    } else {
      var i :| 0 <= i < |tiers| && Written(tiers[i]) > 1;
      assert Seen(tiers[i]) > 1;
    }
  }

  lemma SeenTwice(tiers: seq<Zone>)
    requires Twice(tiers, Seen) && !Twice(tiers, Written)
    requires forall i :: 0 <= i < |tiers| ==> Written(tiers[i]) <= Seen(tiers[i]) && (Written(tiers[i]) < Seen(tiers[i]) <==> tiers[i].groupValue == QUOTED_DEFAULT)
    ensures QuotedClash(tiers)
  {
    hide QUOTED_DEFAULT, Decode;
    if i, j :| 0 <= i < j < |tiers| && Seen(tiers[i]) > 0 && Seen(tiers[j]) > 0 {
      assert Written(tiers[i]) == 0 || Written(tiers[j]) == 0;
    } else {
      var i :| 0 <= i < |tiers| && Seen(tiers[i]) > 1;
      assert Written(tiers[i]) <= 1;
      assert tiers[i].groupDefault;
    }
  }

  /** For example, a tier for the value `default` and a default tier for `gold`. */
  lemma QuotedDefaultAccepted(a: Zone, b: Zone)
    requires a.groupValue == QUOTED_DEFAULT && !a.groupDefault && b.groupValue == "\"gold\"" && b.groupDefault
    ensures Defaults(Entries([a, b])) <= 1 && NginxDefaults(Entries([a, b])) > 1
  {
    var tiers := [a, b];
    DefaultTexts(b.groupValue);
    assert |"\"gold\""| == 6 && |"default"| == 7 && |QUOTED_DEFAULT| == 9;
    assert Written(a) == 0 && Written(b) == 1 && Seen(b) == 1;
    DefaultTexts(a.groupValue);
    assert Seen(a) == 1;
    hide Decode, Written, Seen, QUOTED_DEFAULT;
    DefaultsOfEntries(tiers);
    NginxDefaultsOfEntries(tiers);
    assert tiers[..1] == [a] && tiers[..1][..0] == [];
    assert Total(tiers[..1], Written) == Written(a) + Total(tiers[..1][..0], Written) == 0;
    assert Total(tiers[..1], Seen) == Seen(a) + Total(tiers[..1][..0], Seen) == 1;
    hide Entries;
  }

  // ---- what the maps select ----

  /** The map from the group variable to one zone's key. */
  function PolicyGroupMap(z: Zone): Map {
    Map(z.groupVariable, "$" + z.name, [Parameter("default", "''"), Parameter(z.policyValue, "Val" + z.policyResult)])
  }

  /** How NGINX reads a quoted result. */
  function Token(raw: string): string {
    if |raw| >= 2 && raw[0] == '\'' && raw[|raw| - 1] == '\'' then raw[1..|raw| - 1] else raw
  }

  function Read(m: Map): Map {
    m.(parameters := seq(|m.parameters|, i requires 0 <= i < |m.parameters| =>
      Parameter(m.parameters[i].value, Token(m.parameters[i].result))))
  }

  /** A policy value is the literal word `rl_...`. */
  predicate PlainPolicyValue(s: string) {
    |s| > 2 && s[0] == 'r' && s[1] == 'l' && s[2] == '_' && Lacks(s, '$')
  }

  /** A condition that names the request's value, ignoring case. */
  predicate ByText(z: Zone, x: string) { Decode(z.groupValue).Exact? && SameText(Decode(z.groupValue).text, x) }

  /** A condition whose regular expression the request's value matches. */
  predicate ByRegex(z: Zone, x: string, regex: (string, string) -> bool) {
    Decode(z.groupValue).Regex? && regex(Decode(z.groupValue).pattern, x)
  }

  predicate IsDefault(z: Zone) { z.groupDefault || Decode(z.groupValue).DefaultEntry? }

  /** The tier of a request: one that asks for its value by name, else one whose regular
      expression matches it, else a default one; of several, the one listed last. Conditions
      that are special words to NGINX select nothing. */
  ghost predicate IsTier(tiers: seq<Zone>, x: string, regex: (string, string) -> bool, i: int) {
    && 0 <= i < |tiers|
    && var text, re := NoneFrom(tiers, 0, x), NoRegexFrom(tiers, 0, x, regex);
       || (ByText(tiers[i], x) && NoneFrom(tiers, i + 1, x))
       || (text && ByRegex(tiers[i], x, regex) && NoRegexFrom(tiers, i + 1, x, regex))
       || (text && re && IsDefault(tiers[i]) && NoDefaultFrom(tiers, i + 1))
  }

  ghost predicate NoneFrom(tiers: seq<Zone>, i: nat, x: string) { forall k :: i <= k < |tiers| ==> !ByText(tiers[k], x) }

  ghost predicate NoRegexFrom(tiers: seq<Zone>, i: nat, x: string, regex: (string, string) -> bool) {
    forall k :: i <= k < |tiers| ==> !ByRegex(tiers[k], x, regex)
  }

  ghost predicate NoDefaultFrom(tiers: seq<Zone>, i: nat) { forall k :: i <= k < |tiers| ==> !IsDefault(tiers[k]) }

  lemma DefaultWord()
    ensures Decode("default") == DefaultEntry
  {
  }

  lemma TierResults(z: Zone, rest: seq<Parameter>, x: string, regex: (string, string) -> bool)
    ensures ExactResult(TierParameters(z) + rest, x) == if ByText(z, x) then Some(z.policyValue) else ExactResult(rest, x)
    ensures RegexResult(TierParameters(z) + rest, x, regex) == if ByRegex(z, x, regex) then Some(z.policyValue) else RegexResult(rest, x, regex)
    ensures DefaultResult(TierParameters(z) + rest) == if IsDefault(z) then z.policyValue else DefaultResult(rest)
  {
    var es := TierParameters(z) + rest;
    DefaultWord();
    hide Decode;
    assert es[0] == Parameter(z.groupValue, z.policyValue);
    if z.groupDefault {
      assert es[1..][0] == Parameter("default", z.policyValue) && es[1..][1..] == rest;
    } else {
      assert es[1..] == rest;
    }
  }

  lemma EntriesStep(tiers: seq<Zone>)
    requires |tiers| > 0
    ensures Entries(tiers) == TierParameters(tiers[|tiers| - 1]) + Entries(tiers[..|tiers| - 1])
  {
  }

  lemma NoEntries(x: string, regex: (string, string) -> bool)
    ensures Entries([]) == [] && ExactResult([], x) == None && RegexResult([], x, regex) == None && DefaultResult([]) == ""
  {
  }

  lemma {:induction false} ExactEntries(tiers: seq<Zone>, x: string, regex: (string, string) -> bool)
    ensures forall i :: 0 <= i < |tiers| && ByText(tiers[i], x) && NoneFrom(tiers, i + 1, x) ==>
              ExactResult(Entries(tiers), x) == Some(tiers[i].policyValue)
    ensures NoneFrom(tiers, 0, x) ==> ExactResult(Entries(tiers), x) == None
  {
    hide Entries, ByText, TierParameters, ExactResult, RegexResult, DefaultResult;
    NoEntries(x, regex);
    if |tiers| > 0 {
      var z, init := tiers[|tiers| - 1], tiers[..|tiers| - 1];
      ExactEntries(init, x, regex);
      TierResults(z, Entries(init), x, regex);
      EntriesStep(tiers);
      assert forall i :: 0 <= i < |init| ==> init[i] == tiers[i];
      assert tiers[|init|] == z;
    }
  }

  lemma {:induction false} RegexEntries(tiers: seq<Zone>, x: string, regex: (string, string) -> bool)
    ensures forall i :: 0 <= i < |tiers| && ByRegex(tiers[i], x, regex) && NoRegexFrom(tiers, i + 1, x, regex) ==>
              RegexResult(Entries(tiers), x, regex) == Some(tiers[i].policyValue)
    ensures NoRegexFrom(tiers, 0, x, regex) ==> RegexResult(Entries(tiers), x, regex) == None
  {
    hide Entries, ByRegex, TierParameters, ExactResult, RegexResult, DefaultResult;
    NoEntries(x, regex);
    if |tiers| > 0 {
      var z, init := tiers[|tiers| - 1], tiers[..|tiers| - 1];
      RegexEntries(init, x, regex);
      TierResults(z, Entries(init), x, regex);
      EntriesStep(tiers);
      assert forall i :: 0 <= i < |init| ==> init[i] == tiers[i];
      assert tiers[|init|] == z;
    }
  }

  lemma {:induction false} DefaultEntries(tiers: seq<Zone>, x: string, regex: (string, string) -> bool)
    ensures forall i :: 0 <= i < |tiers| && IsDefault(tiers[i]) && NoDefaultFrom(tiers, i + 1) ==>
              DefaultResult(Entries(tiers)) == tiers[i].policyValue
    ensures NoDefaultFrom(tiers, 0) ==> DefaultResult(Entries(tiers)) == ""
  {
    hide Entries, IsDefault, TierParameters, ExactResult, RegexResult, DefaultResult;
    NoEntries(x, regex);
    if |tiers| > 0 {
      var z, init := tiers[|tiers| - 1], tiers[..|tiers| - 1];
      DefaultEntries(init, x, regex);
      TierResults(z, Entries(init), x, regex);
      EntriesStep(tiers);
      assert forall i :: 0 <= i < |init| ==> init[i] == tiers[i];
      assert tiers[|init|] == z;
    }
  }

  /** The last tier with a property. */
  lemma {:induction false} LastWith(tiers: seq<Zone>, p: Zone -> bool, n: nat) returns (i: nat)
    requires n <= |tiers| && exists k :: 0 <= k < n && p(tiers[k])
    ensures i < n && p(tiers[i]) && forall k :: i < k < n ==> !p(tiers[k])
  {
    if p(tiers[n - 1]) {
      i := n - 1;
    } else {
      i := LastWith(tiers, p, n - 1);
    }
  }

  /** A group map gives every request the policy value of its tier, whatever the conditions
      are. */
  lemma GroupMapSelectsTier(tiers: seq<Zone>, x: string, regex: (string, string) -> bool)
    ensures var v := Select(Entries(tiers), x, regex);
            && (forall i :: IsTier(tiers, x, regex, i) ==> v == tiers[i].policyValue)
            && ((forall i :: 0 <= i < |tiers| ==> !IsTier(tiers, x, regex, i)) ==> v == "")
  {
    ExactEntries(tiers, x, regex);
    RegexEntries(tiers, x, regex);
    DefaultEntries(tiers, x, regex);
    hide Entries, ByText, ByRegex, IsDefault, ExactResult, RegexResult, DefaultResult;
    if !NoneFrom(tiers, 0, x) {
      var i := LastWith(tiers, z => ByText(z, x), |tiers|);
      assert ByText(tiers[i], x) && NoneFrom(tiers, i + 1, x);
      assert IsTier(tiers, x, regex, i);
    } else if !NoRegexFrom(tiers, 0, x, regex) {
      var i := LastWith(tiers, z => ByRegex(z, x, regex), |tiers|);
      assert ByRegex(tiers[i], x, regex) && NoRegexFrom(tiers, i + 1, x, regex);
      assert IsTier(tiers, x, regex, i);
    } else if !NoDefaultFrom(tiers, 0) {
      var i := LastWith(tiers, z => IsDefault(z), |tiers|);
      assert IsDefault(tiers[i]) && NoDefaultFrom(tiers, i + 1);
      assert IsTier(tiers, x, regex, i);
    }
  }

  // ---- the key of a zone ----

  function ZoneVariable(z: Zone): string { "$" + z.name }

  lemma PlainDecodes(s: string)
    requires PlainPolicyValue(s)
    ensures Decode(s) == Exact(s) && Token(s) == s
  {
  }

  lemma {:induction false} ReadEntries(tiers: seq<Zone>)
    requires forall k :: 0 <= k < |tiers| ==> PlainPolicyValue(tiers[k].policyValue)
    ensures forall i :: 0 <= i < |Entries(tiers)| ==> Token(Entries(tiers)[i].result) == Entries(tiers)[i].result
  {
    if |tiers| > 0 {
      PlainDecodes(tiers[|tiers| - 1].policyValue);
      ReadEntries(tiers[..|tiers| - 1]);
    }
  }

  /** One zone's key is non-empty exactly when the group variable holds its policy value. */
  lemma KeyFollowsGroup(e: Env, q: Request, z: Zone, g: string, depth: nat)
    requires PlainPolicyValue(z.policyValue)
    requires e(ZoneVariable(z)) == MapDef(Read(PolicyGroupMap(z)))
    requires Expand(e, q, z.groupVariable, depth) == Some(g)
    requires Expand(e, q, "Val" + z.policyResult, depth).Some?
    ensures var r := Value(e, q, ZoneVariable(z), depth + 1);
            r.Some? && (r.value != "" <==> SameText(g, z.policyValue))
  {
    var m := Read(PolicyGroupMap(z));
    PlainDecodes(z.policyValue);
    ReadPolicyGroupMap(z);
    hide Decode, Read, PolicyGroupMap;
    SelectOfTwo(z.policyValue, "Val" + z.policyResult, g, q.regex);
    ValueOfMap(e, q, ZoneVariable(z), m, g, depth);
    if SameText(g, z.policyValue) {
      ExpandKeepsLiteral(e, q, "Val" + z.policyResult, depth);
    } else {
      assert Expand(e, q, "", depth) == Some("");
    }
  }

  lemma ReadPolicyGroupMap(z: Zone)
    ensures var m := Read(PolicyGroupMap(z));
            && m.source == z.groupVariable
            && m.parameters == [Parameter("default", ""), Parameter(z.policyValue, "Val" + z.policyResult)]
  {
    var m := PolicyGroupMap(z);
    assert Token("''") == "";
    assert Token("Val" + z.policyResult) == "Val" + z.policyResult;
    assert Read(m).parameters[0] == Parameter("default", "") && |Read(m).parameters| == 2;
  }

  lemma ValueOfMap(e: Env, q: Request, name: string, m: Map, x: string, depth: nat)
    requires e(name) == MapDef(m) && Expand(e, q, m.source, depth) == Some(x)
    ensures Value(e, q, name, depth + 1) == Expand(e, q, Select(m.parameters, x, q.regex), depth)
  {
  }

  lemma SelectOfTwo(value: string, result: string, g: string, regex: (string, string) -> bool)
    requires Decode(value) == Exact(value)
    ensures Select([Parameter("default", ""), Parameter(value, result)], g, regex) == if SameText(g, value) then result else ""
  {
    var ps := [Parameter("default", ""), Parameter(value, result)];
    assert ps[1..] == [Parameter(value, result)] && ps[1..][1..] == [];
    assert Decode("default") == DefaultEntry;
    hide Decode;
    assert ExactResult(ps[1..][1..], g) == None && RegexResult(ps[1..][1..], g, regex) == None;
    assert ExactResult(ps, g) == ExactResult(ps[1..], g) == if SameText(value, g) then Some(result) else None;
    assert RegexResult(ps, g, regex) == RegexResult(ps[1..], g, regex) == None;
    assert DefaultResult(ps) == "";
  }

  lemma ExpandKeepsLiteral(e: Env, q: Request, s: string, depth: nat)
    requires |s| > 0 && s[0] != '$' && Expand(e, q, s, depth).Some?
    ensures Expand(e, q, s, depth).value != ""
  {
  }

  /** Over every context and request: a zone limits the request exactly when the policy value of
      the request's tier is the zone's own. */
  lemma KeyFollowsTier(e: Env, q: Request, zones: seq<Zone>, z: Zone, x: string, depth: nat)
    requires z in zones && z.groupVariable in Variables(zones) && IsVariable(z.groupVariable)
    requires PlainTiers(zones, z.groupVariable)
    requires e(z.groupVariable) == MapDef(Read(GroupMaps(zones)[z.groupVariable]))
    requires Expand(e, q, GroupMaps(zones)[z.groupVariable].source, depth) == Some(x)
    requires e(ZoneVariable(z)) == MapDef(Read(PolicyGroupMap(z)))
    requires Expand(e, q, "Val" + z.policyResult, depth + 1).Some?
    ensures var tiers := Tiers(zones, z.groupVariable);
            var r := Value(e, q, ZoneVariable(z), depth + 2);
            && r.Some?
            && (r.value != "" <==> exists i :: IsTier(tiers, x, q.regex, i) && SameText(tiers[i].policyValue, z.policyValue))
  {
    var v := z.groupVariable;
    var tiers := Tiers(zones, v);
    var m := Read(GroupMaps(zones)[v]);
    ReadEntries(tiers);
    assert m.parameters == Entries(tiers) && m.source == GroupMaps(zones)[v].source;
    TierMember(zones, v, z);
    hide Read, PolicyGroupMap, GroupMaps, Tiers, Entries, Variables, IsVariable, IsTier;
    GroupMapSelectsTier(tiers, x, q.regex);
    var g := Select(Entries(tiers), x, q.regex);
    ValueOfMap(e, q, v, m, x, depth);
    if i :| 0 <= i < |tiers| && IsTier(tiers, x, q.regex, i) {
      assert g == tiers[i].policyValue;
    }
    ExpandLiteral(e, q, g, depth);
    ExpandSingle(e, q, v, depth + 1);
    var k :| 0 <= k < |tiers| && tiers[k] == z;
    KeyFollowsGroup(e, q, z, g, depth + 1);
    SameLength(g, z.policyValue);
    TierInRange(tiers, x, q.regex);
  }

  predicate PlainTiers(zones: seq<Zone>, v: string) {
    forall k :: 0 <= k < |Tiers(zones, v)| ==> PlainPolicyValue(Tiers(zones, v)[k].policyValue)
  }

  lemma TierInRange(tiers: seq<Zone>, x: string, regex: (string, string) -> bool)
    ensures forall i :: IsTier(tiers, x, regex, i) ==> 0 <= i < |tiers|
  {
  }

  lemma SameLength(a: string, b: string)
    ensures SameText(a, b) ==> |a| == |b|
  {
  }

  /** With distinct policy values each zone limits its own tier and no other. */
  lemma OnlyOwnTier(tiers: seq<Zone>, x: string, regex: (string, string) -> bool, k: nat)
    requires k < |tiers|
    requires forall i :: 0 <= i < |tiers| && i != k ==> !SameText(tiers[i].policyValue, tiers[k].policyValue)
    ensures (exists i :: IsTier(tiers, x, regex, i) && SameText(tiers[i].policyValue, tiers[k].policyValue)) <==> IsTier(tiers, x, regex, k)
  {
    TierInRange(tiers, x, regex);
    hide IsTier;
    assert IsTier(tiers, x, regex, k) ==> SameText(tiers[k].policyValue, tiers[k].policyValue);
  }

  /** A request has one tier at most. */
  lemma OneTierAtMost(tiers: seq<Zone>, x: string, regex: (string, string) -> bool, i: int, j: int)
    requires IsTier(tiers, x, regex, i) && IsTier(tiers, x, regex, j)
    ensures i == j
  {
    hide ByText, ByRegex, IsDefault;
  }
}
