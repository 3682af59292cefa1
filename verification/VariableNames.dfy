/** The concrete names of one VirtualServer's variables, keys, zones and internal paths,
    and the laws about them that routing relies on. */
module VariableNames {
  import opened Text
  import opened Nginx
  import opened Routes
  import opened Compile

  // ---- the laws ----

  /** NGINX reads every generated name as it is meant: variables whole, paths as literal
      text, and weight keys as plain strings. */
  ghost predicate Readable(nm: Namer) {
    && (forall k {:trigger nm.variable(k)} :: IsVariable(nm.variable(k)) && Routing(nm.variable(k)))
    && (forall s {:trigger nm.path(s)} :: Lacks(nm.path(s), '$') && StartsWith(nm.path(s), "/internal_location_"))
    && (forall sc, i, j {:trigger nm.weightKey(sc, i, j)} :: PlainQuoted(nm.weightKey(sc, i, j)))
    && (forall sc {:trigger nm.keyvalKey(sc)} :: PlainQuoted(nm.keyvalKey(sc)))
  }

  /** A non-empty plain string in quotes, with no quote at either end of it. */
  predicate PlainQuoted(s: string) {
    Decode(s) == Exact(Unquote(s)) && |Unquote(s)| > 0 && TrimQuotes(s) == Unquote(s)
  }

  function TrimQuotes(s: string): string {
    if |s| > 0 && s[0] == '"' then TrimQuotes(s[1..])
    else if |s| > 0 && s[|s| - 1] == '"' then TrimQuotes(s[..|s| - 1])
    else s
  }

  /** Different things have different names; weight keys differ even when case is ignored. */
  ghost predicate Distinct(nm: Namer) {
    && (forall k, k' {:trigger nm.variable(k), nm.variable(k')} :: nm.variable(k) == nm.variable(k') ==> k == k')
    && (forall s, s' {:trigger nm.path(s), nm.path(s')} :: nm.path(s) == nm.path(s') ==> s == s')
    && (forall sc, i, j, i', j' {:trigger nm.weightKey(sc, i, j), nm.weightKey(sc, i', j')} ::
          SameText(Unquote(nm.weightKey(sc, i, j)), Unquote(nm.weightKey(sc, i', j'))) ==> i == i' && j == j')
    && (forall sc, sc' {:trigger nm.zone(sc), nm.zone(sc')} :: nm.zone(sc) == nm.zone(sc') ==> sc == sc')
  }

  // ---- the names ----

  function Tokens(k: Key): (ts: seq<string>)
    ensures |ts| > 0
  {
    match k
    case Cond(mi, i, j) => ["matches", Dec(mi), "match", Dec(i), "cond", Dec(j)]
    case Main(mi) => ["matches", Dec(mi)]
    case Splits(sc) => ["splits", Dec(sc)]
    case Weighted(sc, i, j) => ["split", "clients", Dec(sc), Dec(i), Dec(j)]
    case SplitMap(sc) => ["map", "split", "clients", Dec(sc)]
    case Keyval(sc) => ["keyval", "split", "clients", Dec(sc)]
  }

  function SpotTokens(s: Spot): (ts: seq<string>)
    ensures |ts| > 0
  {
    match s
    case SplitSpot(sc, i) => ["splits", Dec(sc), "split", Dec(i)]
    case MatchSpot(mi, i) => ["matches", Dec(mi), "match", Dec(i)]
    case DefaultSpot(mi) => ["matches", Dec(mi), "default"]
  }

  function VariableName(safe: string, k: Key): string { "$vs_" + safe + "_" + Join(Tokens(k)) }

  function PathName(s: Spot): string { "/internal_location_" + Join(SpotTokens(s)) }

  function ZoneName(safe: string, sc: nat): string {
    "vs_" + safe + "_" + Join(["keyval", "zone", "split", "clients", Dec(sc)])
  }

  function KeyvalKeyName(safe: string, sc: nat): string {
    "\"" + "vs_" + safe + "_" + Join(["keyval", "key", "split", "clients", Dec(sc)]) + "\""
  }

  function WeightKeyText(safe: string, sc: nat, i: nat, j: nat): string {
    "vs_" + safe + "_" + Join(["split", "clients", Dec(sc), Dec(i), Dec(j)])
  }

  function WeightKeyName(safe: string, sc: nat, i: nat, j: nat): string {
    "\"" + WeightKeyText(safe, sc, i, j) + "\""
  }

  /** The names for the VirtualServer whose namespace and name, joined by `_` and with `-`
      replaced by `_`, read `safe`. */
  function VirtualServerNamer(safe: string): Namer {
    Namer(
      (k: Key) => VariableName(safe, k),
      (s: Spot) => PathName(s),
      (sc: nat) => ZoneName(safe, sc),
      (sc: nat) => KeyvalKeyName(safe, sc),
      (sc: nat, i: nat, j: nat) => WeightKeyName(safe, sc, i, j))
  }

  // ---- the laws hold ----

  predicate IsToken(t: string) { forall i :: 0 <= i < |t| ==> IsDigit(t[i]) || 'a' <= t[i] <= 'z' }

  lemma KeyTokensAreTokens(k: Key)
    ensures forall i :: 0 <= i < |Tokens(k)| ==> IsToken(Tokens(k)[i])
  {
  }

  lemma SpotTokensAreTokens(s: Spot)
    ensures forall i :: 0 <= i < |SpotTokens(s)| ==> IsToken(SpotTokens(s)[i])
  {
  }

  lemma {:induction false} JoinedTokens(ts: seq<string>)
    requires forall i :: 0 <= i < |ts| ==> IsToken(ts[i])
    ensures NoUnderscore(ts)
    ensures forall i :: 0 <= i < |Join(ts)| ==> IsDigit(Join(ts)[i]) || 'a' <= Join(ts)[i] <= 'z' || Join(ts)[i] == '_'
    ensures AllWord(Join(ts)) && Lacks(Join(ts), '$') && Lower(Join(ts)) == Join(ts)
  {
    if |ts| > 1 {
      JoinedTokens(ts[1..]);
    }
  }

  lemma VariableNameInjective(safe: string, k: Key, k': Key)
    requires VariableName(safe, k) == VariableName(safe, k')
    ensures k == k'
  {
    KeyTokensAreTokens(k);
    KeyTokensAreTokens(k');
    JoinedTokens(Tokens(k));
    JoinedTokens(Tokens(k'));
    var n := |"$vs_" + safe + "_"|;
    assert VariableName(safe, k)[n..] == Join(Tokens(k));
    assert VariableName(safe, k')[n..] == Join(Tokens(k'));
    JoinInjective(Tokens(k), Tokens(k'));
    SameTokensSameKey(k, k');
  }

  lemma SameTokensSameKey(k: Key, k': Key)
    requires Tokens(k) == Tokens(k')
    ensures k == k'
  {
    var t, t' := Tokens(k), Tokens(k');
    assert |t| == |t'| && t[0] == t'[0] && t[1] == t'[1];
    assert t[0] == t'[0] ==> t[0][0] == t'[0][0];
    match k
    case Cond(mi, i, j) =>
      DecInjective(mi, k'.matches); DecInjective(i, k'.mtch); DecInjective(j, k'.cond);
    case Main(mi) => DecInjective(mi, k'.matches);
    case Splits(sc) => DecInjective(sc, k'.index);
    case Weighted(sc, i, j) =>
      DecInjective(sc, k'.index); DecInjective(i, k'.first); DecInjective(j, k'.second);
    case SplitMap(sc) => DecInjective(sc, k'.index);
    case Keyval(sc) => DecInjective(sc, k'.index);
  }

  lemma PathNameInjective(s: Spot, s': Spot)
    requires PathName(s) == PathName(s')
    ensures s == s'
  {
    SpotTokensAreTokens(s);
    SpotTokensAreTokens(s');
    JoinedTokens(SpotTokens(s));
    JoinedTokens(SpotTokens(s'));
    var n := |"/internal_location_"|;
    assert PathName(s)[n..] == Join(SpotTokens(s));
    assert PathName(s')[n..] == Join(SpotTokens(s'));
    JoinInjective(SpotTokens(s), SpotTokens(s'));
    var t, t' := SpotTokens(s), SpotTokens(s');
    assert t[0][0] == t'[0][0] && t[1] == t'[1] && t[2] == t'[2];
    match s
    case SplitSpot(sc, i) => DecInjective(sc, s'.index); DecInjective(i, s'.split);
    case MatchSpot(mi, i) =>
      assert t[2] == "match" != "default";
      DecInjective(mi, s'.matches); DecInjective(i, s'.mtch);
    case DefaultSpot(mi) => DecInjective(mi, s'.matches);
  }

  lemma VariableNameIsVariable(safe: string, k: Key)
    requires AllWord(safe)
    ensures IsVariable(VariableName(safe, k)) && Routing(VariableName(safe, k))
  {
    KeyTokensAreTokens(k);
    JoinedTokens(Tokens(k));
    var v := VariableName(safe, k);
    assert v == "$vs_" + (safe + "_" + Join(Tokens(k)));
    assert v[1..] == "vs_" + (safe + "_" + Join(Tokens(k)));
  }

  lemma PathNameIsLiteral(s: Spot)
    ensures Lacks(PathName(s), '$') && StartsWith(PathName(s), "/internal_location_")
  {
    SpotTokensAreTokens(s);
    JoinedTokens(SpotTokens(s));
  }

  lemma QuotedIsPlain(t: string)
    requires |t| > 1 && t[0] == 'v' && t[1] == 's' && IsDigit(t[|t| - 1])
    ensures Unquote("\"" + t + "\"") == t && PlainQuoted("\"" + t + "\"")
  {
    var k := "\"" + t + "\"";
    assert k[1..|k| - 1] == t;
    assert k[1..] == t + "\"";
    assert (t + "\"")[..|t|] == t;
    assert TrimQuotes(t) == t;
  }

  lemma {:induction false} JoinEndsWithLast(ts: seq<string>)
    requires |ts| > 0 && |ts[|ts| - 1]| > 0
    ensures |Join(ts)| > 0 && Join(ts)[|Join(ts)| - 1] == ts[|ts| - 1][|ts[|ts| - 1]| - 1]
  {
    if |ts| > 1 {
      JoinEndsWithLast(ts[1..]);
    }
  }

  lemma WeightKeyDecodes(safe: string, sc: nat, i: nat, j: nat)
    ensures Unquote(WeightKeyName(safe, sc, i, j)) == WeightKeyText(safe, sc, i, j)
    ensures PlainQuoted(WeightKeyName(safe, sc, i, j))
  {
    var ts := ["split", "clients", Dec(sc), Dec(i), Dec(j)];
    JoinEndsWithLast(ts);
    var t := WeightKeyText(safe, sc, i, j);
    assert t[0] == 'v' && t[1] == 's' && t[|t| - 1] == Join(ts)[|Join(ts)| - 1];
    QuotedIsPlain(t);
  }

  lemma KeyvalKeyDecodes(safe: string, sc: nat)
    ensures PlainQuoted(KeyvalKeyName(safe, sc))
  {
    var ts := ["keyval", "key", "split", "clients", Dec(sc)];
    JoinEndsWithLast(ts);
    var t := "vs_" + safe + "_" + Join(ts);
    assert t[0] == 'v' && t[1] == 's' && t[|t| - 1] == Join(ts)[|Join(ts)| - 1];
    QuotedIsPlain(t);
    assert KeyvalKeyName(safe, sc) == "\"" + t + "\"";
  }

  lemma LowerSuffix(a: string, b: string, b': string)
    requires SameText(a + b, a + b')
    ensures Lower(b) == Lower(b')
  {
    var l, l' := Lower(a + b), Lower(a + b');
    assert |a + b| == |a + b'|;
    forall k | 0 <= k < |b| ensures Lower(b)[k] == Lower(b')[k] {
      assert l[|a| + k] == l'[|a| + k];
    }
  }

  lemma WeightKeyTextInjective(safe: string, sc: nat, i: nat, j: nat, i': nat, j': nat)
    requires SameText(WeightKeyText(safe, sc, i, j), WeightKeyText(safe, sc, i', j'))
    ensures i == i' && j == j'
  {
    var k, k' := Weighted(sc, i, j), Weighted(sc, i', j');
    KeyTokensAreTokens(k);
    KeyTokensAreTokens(k');
    JoinedTokens(Tokens(k));
    JoinedTokens(Tokens(k'));
    LowerSuffix("vs_" + safe + "_", Join(Tokens(k)), Join(Tokens(k')));
    JoinInjective(Tokens(k), Tokens(k'));
    SameTokensSameKey(k, k');
  }

  lemma ZoneNameInjective(safe: string, sc: nat, sc': nat)
    requires ZoneName(safe, sc) == ZoneName(safe, sc')
    ensures sc == sc'
  {
    var t := ["keyval", "zone", "split", "clients", Dec(sc)];
    var t' := ["keyval", "zone", "split", "clients", Dec(sc')];
    JoinedTokens(t);
    JoinedTokens(t');
    var n := |"vs_" + safe + "_"|;
    assert ZoneName(safe, sc)[n..] == Join(t);
    assert ZoneName(safe, sc')[n..] == Join(t');
    JoinInjective(t, t');
    assert t[4] == t'[4];
    DecInjective(sc, sc');
  }

  /** NGINX reads the generated names as they are meant exactly when the name of the
      VirtualServer, made safe, is a word. */
  lemma NamesAreReadable(safe: string)
    ensures Readable(VirtualServerNamer(safe)) <==> AllWord(safe)
  {
    var nm := VirtualServerNamer(safe);
    if AllWord(safe) {
      forall k: Key ensures IsVariable(nm.variable(k)) && Routing(nm.variable(k)) { VariableNameIsVariable(safe, k); }
      forall s: Spot ensures Lacks(nm.path(s), '$') && StartsWith(nm.path(s), "/internal_location_") {
        PathNameIsLiteral(s);
      }
      forall sc: nat, i: nat, j: nat ensures PlainQuoted(nm.weightKey(sc, i, j)) { WeightKeyDecodes(safe, sc, i, j); }
      forall sc: nat ensures PlainQuoted(nm.keyvalKey(sc)) { KeyvalKeyDecodes(safe, sc); }
    }
    if Readable(nm) {
      assert IsVariable(nm.variable(Main(0)));
      hide Join, Readable;
      var v := VariableName(safe, Main(0));
      assert forall i :: 0 <= i < |safe| ==> v[1..][3 + i] == safe[i];
    }
  }

  // ---- names with a dot ----

  /** `strings.ReplaceAll` of `-` in the joined namespace and name. */
  function SafeName(ns: string, name: string): (r: string)
    ensures |r| == |ns + "_" + name|
  {
    var s := ns + "_" + name;
    seq(|s|, i requires 0 <= i < |s| => if s[i] == '-' then '_' else s[i])
  }

  /** A Kubernetes object name: lower-case letters, digits, hyphens and dots. */
  predicate ObjectName(s: string) {
    forall i :: 0 <= i < |s| ==> IsDigit(s[i]) || 'a' <= s[i] <= 'z' || s[i] == '-' || s[i] == '.'
  }

  predicate WordsAndDots(s: string) { forall i :: 0 <= i < |s| ==> IsWord(s[i]) || s[i] == '.' }

  /** Object names may hold dots, and only those keep the safe name from being a word. */
  lemma SafeNameIsWord(ns: string, name: string)
    requires ObjectName(ns) && ObjectName(name)
    ensures WordsAndDots(SafeName(ns, name))
    ensures AllWord(SafeName(ns, name)) <==> Lacks(ns, '.') && Lacks(name, '.')
  {
    var s, r := ns + "_" + name, SafeName(ns, name);
    assert forall i :: 0 <= i < |s| ==> (r[i] == '.' <==> s[i] == '.');
    assert forall i :: 0 <= i < |ns| ==> s[i] == ns[i];
    assert forall i :: 0 <= i < |name| ==> s[|ns| + 1 + i] == name[i];
  }

  function FirstDot(s: string): (n: nat)
    ensures n <= |s| && (forall i :: 0 <= i < n ==> s[i] != '.') && (n < |s| ==> s[n] == '.')
  {
    if |s| == 0 || s[0] == '.' then 0 else 1 + FirstDot(s[1..])
  }

  /** A routing variable of a name with a dot is read only up to the dot. */
  lemma DottedNameMisread(e: Env, q: Request, safe: string, k: Key, depth: nat)
    requires WordsAndDots(safe) && !AllWord(safe)
    ensures var n := FirstDot(safe);
            && n < |safe|
            && Expand(e, q, VariableName(safe, k), depth) ==
               match Value(e, q, "$vs_" + safe[..n], depth)
               case None => None
               case Some(v) => Some(v + safe[n..] + "_" + Join(Tokens(k)))
  {
    hide Join, Tokens, Expand, Value, FirstDot, IsWord;
    var n, tail := FirstDot(safe), Join(Tokens(k));
    KeyText(k);
    DotSplits(safe);
    SplitName(safe, n, tail);
    var w, rest := "vs_" + safe[..n], safe[n..] + "_" + tail;
    assert rest[0] == '.' && Lacks(rest, '$');
    ExpandWordThenLiteral(e, q, w, rest, depth);
    match Value(e, q, "$" + w, depth)
    case None =>
    case Some(v) => assert v + rest == v + safe[n..] + "_" + tail;
  }

  lemma KeyText(k: Key)
    ensures Lacks(Join(Tokens(k)), '$')
  {
    KeyTokensAreTokens(k);
    JoinedTokens(Tokens(k));
  }

  lemma DotSplits(safe: string)
    requires WordsAndDots(safe) && !AllWord(safe)
    ensures var n := FirstDot(safe);
            n < |safe| && safe[n] == '.' && !IsWord('.') && AllWord("vs_" + safe[..n]) && Lacks(safe[n..], '$')
  {
    hide FirstDot;
    var n := FirstDot(safe);
    var t := "vs_" + safe[..n];
    assert t[0] == 'v' && t[1] == 's' && t[2] == '_' && forall i :: 3 <= i < |t| ==> t[i] == safe[i - 3];
  }

  /** For the VirtualServer `my.cafe` in namespace `ns`, the variable of its first splits is
      read as `$vs_ns_my`. */
  lemma MyCafeMisread(e: Env, q: Request, depth: nat)
    ensures Expand(e, q, VariableName(SafeName("ns", "my.cafe"), Splits(0)), depth) ==
            match Value(e, q, "$vs_ns_my", depth)
            case None => None
            case Some(v) => Some(v + ".cafe" + "_" + Join(Tokens(Splits(0))))
  {
    hide Expand, Value, Join, Tokens, VariableName;
    var safe := SafeName("ns", "my.cafe");
    CafeName();
    DottedNameMisread(e, q, safe, Splits(0), depth);
    assert "$vs_" + "ns_my" == "$vs_ns_my";
  }

  lemma CafeName()
    ensures var safe := SafeName("ns", "my.cafe");
            WordsAndDots(safe) && !AllWord(safe) && FirstDot(safe) == 5 && safe[..5] == "ns_my" && safe[5..] == ".cafe"
  {
    var safe := SafeName("ns", "my.cafe");
    assert safe == "ns_my.cafe";
    assert safe[5] == '.' && !IsWord(safe[5]) && forall i :: 0 <= i < 5 ==> safe[i] != '.';
    hide SafeName;
    assert FirstDot(safe) == 5 by { hide IsWord; }
  }

  lemma SplitName(safe: string, n: nat, tail: string)
    requires n <= |safe|
    ensures "$vs_" + safe + "_" + tail == "$" + ("vs_" + safe[..n]) + (safe[n..] + "_" + tail)
    ensures "$" + ("vs_" + safe[..n]) == "$vs_" + safe[..n]
  {
    assert safe == safe[..n] + safe[n..];
    assert "$vs_" == "$" + "vs_";
  }

  lemma PathNameHasNoDot(s: Spot)
    ensures Lacks(PathName(s), '.')
  {
    SpotTokensAreTokens(s);
    JoinedTokens(SpotTokens(s));
  }

  /** So it never leads to an internal location. */
  lemma DottedNameLeadsNowhere(e: Env, q: Request, safe: string, k: Key, s: Spot, depth: nat)
    requires WordsAndDots(safe) && !AllWord(safe)
    ensures Expand(e, q, VariableName(safe, k), depth) != Some(PathName(s))
  {
    DottedNameMisread(e, q, safe, k, depth);
    PathNameHasNoDot(s);
    hide Expand, Value, Join, Tokens, PathName, VariableName;
    var n := FirstDot(safe);
    match Value(e, q, "$vs_" + safe[..n], depth)
    case None =>
    case Some(v) =>
      var t := v + safe[n..] + "_" + Join(Tokens(k));
      assert t[|v|] == '.';
  }

  lemma WeightKeysDiffer(safe: string, sc: nat, i: nat, j: nat, i': nat, j': nat)
    requires SameText(Unquote(WeightKeyName(safe, sc, i, j)), Unquote(WeightKeyName(safe, sc, i', j')))
    ensures i == i' && j == j'
  {
    WeightKeyDecodes(safe, sc, i, j);
    WeightKeyDecodes(safe, sc, i', j');
    WeightKeyTextInjective(safe, sc, i, j, i', j');
  }

  /** The generated names never clash, whatever the namespace and the name. */
  lemma NamesAreDistinct(safe: string)
    ensures Distinct(VirtualServerNamer(safe))
  {
    var nm := VirtualServerNamer(safe);
    forall k: Key, k': Key | nm.variable(k) == nm.variable(k') ensures k == k' { VariableNameInjective(safe, k, k'); }
    forall s: Spot, s': Spot | nm.path(s) == nm.path(s') ensures s == s' { PathNameInjective(s, s'); }
    forall sc: nat, i: nat, j: nat, i': nat, j': nat
      | SameText(Unquote(nm.weightKey(sc, i, j)), Unquote(nm.weightKey(sc, i', j')))
      ensures i == i' && j == j'
    {
      WeightKeysDiffer(safe, sc, i, j, i', j');
    }
    forall sc: nat, sc': nat | nm.zone(sc) == nm.zone(sc') ensures sc == sc' { ZoneNameInjective(safe, sc, sc'); }
  }
}
