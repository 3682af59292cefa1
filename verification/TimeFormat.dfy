/** NGINX times such as `1d 12h 30`: the pattern with its lazy groups, matched by backtracking
    in the order of preference, and the normal form that is written to the configuration. */
module TimeFormat {
  import opened Text

  /** The whitespace that `\s` stands for. */
  predicate IsBlank(c: char) { c == '\t' || c == '\n' || c == '\U{0C}' || c == '\r' || c == ' ' }

  function SkipSpace(s: string): (r: string)
    ensures |r| <= |s| && (|r| > 0 ==> !IsBlank(r[0]))
  {
    if |s| > 0 && IsBlank(s[0]) then SkipSpace(s[1..]) else s
  }

  /** The number of digits at the start. */
  function Digits(s: string): (n: nat)
    ensures n <= |s| && (n < |s| ==> !IsDigit(s[n]))
  {
    if |s| > 0 && IsDigit(s[0]) then 1 + Digits(s[1..]) else 0
  }

  lemma {:induction false} DigitsAreDigits(s: string, i: nat)
    requires i < Digits(s)
    ensures IsDigit(s[i])
  {
    if i > 0 {
      DigitsAreDigits(s[1..], i - 1);
    }
  }

  const SECONDS := 6
  const GROUPS := 8

  /** The unit of a group. The group for seconds also matches a bare number. */
  function Unit(g: nat): string
    requires g < GROUPS
  {
    match g case 0 => "y" case 1 => "M" case 2 => "w" case 3 => "d" case 4 => "h" case 5 => "m" case 6 => "s" case _ => "ms"
  }

  // ---- the pattern ----

  function AfterGroup(g: nat, s: string): string { if g + 1 < GROUPS then SkipSpace(s) else s }

  /** The groups from `g` on, matched against all of `s`. A lazy group is left out first, and
      is matched only if nothing else succeeds. */
  function Match(g: nat, s: string): (r: Option<seq<string>>)
    requires g <= GROUPS
    ensures r.Some? ==> |r.value| == GROUPS - g
    decreases GROUPS - g, |s| + 2
  {
    if g == GROUPS then (if s == "" then Some([]) else None)
    else
      var without := Match(g + 1, AfterGroup(g, s));
      if without.Some? then Some([""] + without.value) else MatchGroup(g, s)
  }

  function MatchGroup(g: nat, s: string): (r: Option<seq<string>>)
    requires g < GROUPS
    ensures r.Some? ==> |r.value| == GROUPS - g
    decreases GROUPS - g, |s| + 1
  {
    var n := Digits(s);
    if n == 0 then None
    else if g == SECONDS then
      var whole := if n < |s| && s[n] == 's' then Take(g, s, n + 1) else None;
      if whole.Some? then whole else MatchSeconds(s, n)
    else if Unit(g) <= s[n..] then Take(g, s, n + |Unit(g)|)
    else None
  }

  /** A bare number of at most `k` digits: the longest first, then shorter ones. */
  function MatchSeconds(s: string, k: nat): (r: Option<seq<string>>)
    requires k <= |s|
    ensures r.Some? ==> |r.value| == GROUPS - SECONDS
    decreases GROUPS - SECONDS, k
  {
    if k == 0 then None
    else
      var longest := Take(SECONDS, s, k);
      if longest.Some? then longest else MatchSeconds(s, k - 1)
  }

  /** The group has matched `k` characters. */
  function Take(g: nat, s: string, k: nat): (r: Option<seq<string>>)
    requires g < GROUPS && k <= |s|
    ensures r.Some? ==> |r.value| == GROUPS - g
    decreases GROUPS - g, 0
  {
    match Match(g + 1, AfterGroup(g, s[k..]))
    case None => None
    case Some(rest) => Some([s[..k]] + rest)
  }

  function Concat(parts: seq<string>): string {
    if |parts| == 0 then "" else parts[0] + Concat(parts[1..])
  }

  function WithUnit(secs: string): string {
    if secs != "" && secs[|secs| - 1] != 's' then secs + "s" else secs
  }

  function ParseTime(s: string): Option<string> {
    if SkipSpace(s) == "" then None
    else
      match Match(0, s)
      case None => None
      case Some(units) => Some(Concat(units[SECONDS := WithUnit(units[SECONDS])]))
  }

  // ---- reading a time, token by token ----

  /** The group whose unit a letter is. */
  function Letter(c: char): nat {
    if c == 'y' then 0
    else if c == 'M' then 1
    else if c == 'w' then 2
    else if c == 'd' then 3
    else if c == 'h' then 4
    else if c == 'm' then 5
    else if c == 's' then 6
    else GROUPS
  }

  /** The unit that a text after a number starts with, and its length. */
  function UnitAt(after: string): (t: (nat, nat))
    ensures t.0 < GROUPS && t.1 <= |after|
  {
    if |after| > 1 && after[0] == 'm' && after[1] == 's' then (7, 2)
    else if |after| == 0 || Letter(after[0]) == GROUPS then (6, 0)
    else (Letter(after[0]), 1)
  }

  /** The unit that follows a number, and the length of number and unit together. */
  function TokenAt(s: string): (t: (nat, nat))
    requires Digits(s) > 0
    ensures t.0 < GROUPS && Digits(s) <= t.1 <= |s|
  {
    var n := Digits(s);
    (UnitAt(s[n..]).0, n + UnitAt(s[n..]).1)
  }

  lemma UnitAtSeconds(after: string)
    ensures var (u, k) := UnitAt(after);
            && (u == SECONDS ==> k == if |after| > 0 && after[0] == 's' then 1 else 0)
            && (u != SECONDS ==> |after| > 0 && after[0] != 's' && !IsBlank(after[0]))
  {
  }

  lemma UnitAtOther(g: nat, after: string)
    requires g < GROUPS && g != SECONDS
    ensures var (u, k) := UnitAt(after);
            && (Unit(g) <= after ==> u == g || (g == 5 && u == 7 && |after| > 1 && after[1] == 's'))
            && (u == g ==> Unit(g) <= after && k == |Unit(g)|)
  {
  }

  /** What the groups from `g` on must match, without any backtracking: each number with the
      unit that follows it, in the order of the groups. */
  function Munch(g: nat, s: string): (r: Option<seq<string>>)
    requires g <= GROUPS
    ensures r.Some? ==> |r.value| == GROUPS - g
    decreases GROUPS - g, |s|
  {
    if g == GROUPS then (if s == "" then Some([]) else None)
    else if s == "" then Lift("", Munch(g + 1, s))
    else if Digits(s) == 0 || TokenAt(s).0 < g then None
    else
      var (u, k) := TokenAt(s);
      if u == g then Lift(s[..k], Munch(g + 1, AfterGroup(g, s[k..]))) else Lift("", Munch(g + 1, s))
  }

  function Lift(part: string, rest: Option<seq<string>>): Option<seq<string>> {
    match rest case None => None case Some(parts) => Some([part] + parts)
  }

  lemma MunchStep(g: nat, s: string)
    requires g < GROUPS
    ensures s == "" ==> Munch(g, s) == Lift("", Munch(g + 1, s))
    ensures s != "" && Digits(s) == 0 ==> Munch(g, s) == None
    ensures Digits(s) > 0 ==>
              var (u, k) := TokenAt(s);
              Munch(g, s) == if u < g then None else if u == g then Lift(s[..k], Munch(g + 1, AfterGroup(g, s[k..]))) else Lift("", Munch(g + 1, s))
  {
    hide TokenAt, Digits, AfterGroup, Lift;
  }

  predicate Tight(s: string) { |s| > 0 ==> !IsBlank(s[0]) }

  lemma AfterGroupTight(g: nat, s: string)
    requires g + 1 < GROUPS || Tight(s)
    ensures Tight(AfterGroup(g, s))
  {
  }

  lemma TightUnchanged(g: nat, s: string)
    requires Tight(s)
    ensures AfterGroup(g, s) == s
  {
  }

  /** Nothing matches a text that starts with neither a digit nor space. */
  lemma {:induction false} NoMatch(g: nat, s: string)
    requires g <= GROUPS && |s| > 0 && !IsDigit(s[0]) && !IsBlank(s[0])
    ensures Match(g, s) == None
    decreases GROUPS - g
  {
    if g < GROUPS {
      TightUnchanged(g, s);
      NoMatch(g + 1, s);
    }
  }

  lemma {:induction false} DigitsOfSuffix(s: string, k: nat)
    requires k <= Digits(s)
    ensures Digits(s[k..]) == Digits(s) - k
  {
    if k > 0 {
      DigitsOfSuffix(s[1..], k - 1);
      assert s[1..][k - 1..] == s[k..];
    }
  }

  // ---- backtracking changes nothing ----

  // One step of each part of the matcher.

  lemma MatchStep(g: nat, s: string)
    requires g < GROUPS
    ensures var without := Match(g + 1, AfterGroup(g, s));
            Match(g, s) == if without.Some? then Some([""] + without.value) else MatchGroup(g, s)
  {
    hide MatchGroup, AfterGroup;
  }

  lemma TakeStep(g: nat, s: string, k: nat)
    requires g < GROUPS && k <= |s|
    ensures var rest := Match(g + 1, AfterGroup(g, s[k..]));
            Take(g, s, k) == if rest.Some? then Some([s[..k]] + rest.value) else None
  {
    hide Match, AfterGroup;
  }

  lemma SecondsStep(s: string, k: nat)
    requires 0 < k <= |s|
    ensures MatchSeconds(s, k) == if Take(6, s, k).Some? then Take(6, s, k) else MatchSeconds(s, k - 1)
  {
    hide Take;
  }

  lemma GroupStep(g: nat, s: string)
    requires g < GROUPS && Digits(s) > 0
    ensures var n := Digits(s);
            MatchGroup(g, s) ==
            if g == SECONDS then (if n < |s| && s[n] == 's' && Take(g, s, n + 1).Some? then Take(g, s, n + 1) else MatchSeconds(s, n))
            else if Unit(g) <= s[n..] then Take(g, s, n + |Unit(g)|) else None
  {
    hide Take, MatchSeconds;
  }

  lemma LastUnit()
    ensures Unit(7) == "ms"
  {
  }

  /** What the last group matches. */
  lemma MatchLast(s: string)
    ensures var n := Digits(s);
            Match(7, s) == if s == "" then Some([""]) else if n > 0 && s[n..] == "ms" then Some([s]) else None
  {
    hide Digits, Unit;
    assert Unit(7) == "ms" by { LastUnit(); }
    var n := Digits(s);
    assert AfterGroup(7, s) == s;
    assert Match(8, s) == if s == "" then Some([]) else None;
    MatchStep(7, s);
    if s == "" {
      assert [""] + [] == [""];
    } else if n == 0 {
      assert MatchGroup(7, s) == None;
    } else {
      GroupStep(7, s);
      if "ms" <= s[n..] {
        var t := s[n + 2..];
        TakeStep(7, s, n + 2);
        assert AfterGroup(7, t) == t && Match(8, t) == if t == "" then Some([]) else None;
        assert s[n..] == "ms" + t;
        if t == "" {
          assert s[..n + 2] == s && [s] + [] == [s];
        }
      }
    }
  }

  /** A number is never split: if a part of it could be the seconds, the whole of it would
      have been the milliseconds. */
  lemma {:induction false} NeverSplit(s: string, k: nat)
    requires k < Digits(s) && Match(7, s) == None
    ensures MatchSeconds(s, k) == None
  {
    hide Match, Take, IsBlank;
    if k > 0 {
      var t, n := s[k..], Digits(s);
      NeverSplit(s, k - 1);
      DigitsOfSuffix(s, k);
      MatchLast(s);
      MatchLast(t);
      assert t[n - k..] == s[n..] && t != "";
      DigitsAreDigits(s, k);
      DigitIsNoBlank(t[0]);
      TightUnchanged(6, t);
      TakeStep(6, s, k);
      SecondsStep(s, k);
    }
  }

  lemma DigitIsNoBlank(c: char)
    requires IsDigit(c)
    ensures !IsBlank(c)
  {
  }

  /** The group for seconds takes the whole number, with its unit if there is one. */
  lemma SecondsGroup(s: string)
    requires Digits(s) > 0 && Match(7, s) == None
    ensures var n := Digits(s);
            MatchGroup(6, s) == Take(6, s, if n < |s| && s[n] == 's' then n + 1 else n)
  {
    hide Match, Take, MatchSeconds, MatchGroup, Digits, SkipSpace;
    var n := Digits(s);
    NeverSplit(s, n - 1);
    SecondsStep(s, n);
    GroupStep(6, s);
    if n < |s| && s[n] == 's' {
      assert s[n..][0] == 's';
      NoMatch(7, s[n..]);
      TightUnchanged(6, s[n..]);
      TakeStep(6, s, n);
    }
  }

  lemma UnitDecides(g: nat, s: string)
    requires g < GROUPS && g != SECONDS && Digits(s) > 0
    ensures var n := Digits(s);
            var (u, k) := TokenAt(s);
            && (Unit(g) <= s[n..] ==> u == g || (g == 5 && u == 7 && n + 1 < |s| && s[n + 1] == 's'))
            && (u == g ==> Unit(g) <= s[n..] && k == n + |Unit(g)|)
  {
    hide Digits, UnitAt, Unit;
    UnitAtOther(g, s[Digits(s)..]);
  }

  lemma BareOrSeconds(s: string)
    requires Digits(s) > 0
    ensures var n := Digits(s);
            var (u, k) := TokenAt(s);
            && (u == SECONDS ==> k == if n < |s| && s[n] == 's' then n + 1 else n)
            && (u != SECONDS ==> n < |s| && s[n] != 's' && !IsBlank(s[n]))
  {
    hide Digits, UnitAt, IsBlank;
    UnitAtSeconds(s[Digits(s)..]);
  }

  /** A group other than the one whose unit follows the number does not match. */
  lemma OtherGroup(g: nat, s: string)
    requires g < GROUPS && Digits(s) > 0 && TokenAt(s).0 != g && (g == SECONDS ==> Match(7, s) == None)
    ensures MatchGroup(g, s) == None
  {
    hide Match, Take, MatchSeconds, MatchGroup, TokenAt, Digits, SkipSpace;
    var n := Digits(s);
    if g == SECONDS {
      SecondsGroup(s);
      BareOrSeconds(s);
      assert s[n..][0] == s[n];
      NoMatch(7, s[n..]);
      TightUnchanged(6, s[n..]);
      TakeStep(6, s, n);
    } else {
      UnitDecides(g, s);
      GroupStep(g, s);
      if Unit(g) <= s[n..] {
        assert s[n + 1..][0] == 's';
        NoMatch(6, s[n + 1..]);
        TightUnchanged(5, s[n + 1..]);
        TakeStep(5, s, n + 1);
      }
    }
  }

  lemma OwnGroup(g: nat, s: string)
    requires g < GROUPS && Digits(s) > 0 && TokenAt(s).0 == g && (g == SECONDS ==> Match(7, s) == None)
    ensures MatchGroup(g, s) == Take(g, s, TokenAt(s).1)
  {
    hide Match, Take, MatchSeconds, MatchGroup, TokenAt, Digits, SkipSpace;
    if g == SECONDS {
      SecondsGroup(s);
      BareOrSeconds(s);
    } else {
      UnitDecides(g, s);
      GroupStep(g, s);
    }
  }

  /** The lazy groups with all their backtracking match exactly what reading number after
      number matches, and capture the same. */
  lemma {:induction false} MatchIsMunch(g: nat, s: string)
    requires g <= GROUPS && (g == GROUPS || Tight(s))
    ensures Match(g, s) == Munch(g, s)
    decreases GROUPS - g
  {
    if g < GROUPS {
      TightUnchanged(g, s);
      MatchIsMunch(g + 1, s);
      MatchStep(g, s);
      MunchStep(g, s);
      if s == "" {
        assert MatchGroup(g, s) == None;
      } else if Digits(s) == 0 {
        NoMatch(g, s);
      } else {
        var (u, k) := TokenAt(s);
        hide Match, MatchGroup, Take, TokenAt, IsBlank, Digits, SkipSpace, Munch;
        if u == g {
          TooLate(g + 1, s);
          OwnGroup(g, s);
          TakeStep(g, s, k);
          if g + 1 < GROUPS {
            AfterGroupTight(g, s[k..]);
          }
          MatchIsMunch(g + 1, AfterGroup(g, s[k..]));
        } else {
          if u < g {
            TooLate(g + 1, s);
          }
          if Match(g + 1, s) == None {
            OtherGroup(g, s);
          }
        }
      }
    } else {
      assert Match(g, s) == Munch(g, s);
    }
  }

  lemma TooLate(g: nat, s: string)
    requires g <= GROUPS && Digits(s) > 0 && TokenAt(s).0 < g
    ensures Munch(g, s) == None
  {
  }

  // ---- the duration ----

  /** Milliseconds, with NGINX's year of 365 and month of 30 days. */
  function Millis(g: nat): nat
    requires g < GROUPS
  {
    match g
    case 0 => 365 * 86400000
    case 1 => 30 * 86400000
    case 2 => 7 * 86400000
    case 3 => 86400000
    case 4 => 3600000
    case 5 => 60000
    case 6 => 1000
    case _ => 1
  }

  function Weighted(number: string, g: nat): nat
    requires g < GROUPS
  {
    if AllDigits(number) then Num(number) * Millis(g) else 0
  }

  /** The duration that a text denotes, number by number, a bare number being seconds. */
  function Read(s: string): Option<nat>
    decreases |s|, 1
  {
    ReadTokens(SkipSpace(s))
  }

  function ReadTokens(t: string): Option<nat>
    decreases |t|, 0
  {
    if t == "" then Some(0)
    else if Digits(t) == 0 then None
    else AddTo(Weighted(t[..Digits(t)], TokenAt(t).0), Read(t[TokenAt(t).1..]))
  }

  function AddTo(n: nat, rest: Option<nat>): Option<nat> { if rest.Some? then Some(n + rest.value) else None }

  function PartValue(g: nat, part: string): nat
    requires g < GROUPS
  {
    Weighted(part[..Digits(part)], g)
  }

  function Total(g: nat, parts: seq<string>): nat
    requires g + |parts| == GROUPS
    decreases |parts|
  {
    if |parts| == 0 then 0 else PartValue(g, parts[0]) + Total(g + 1, parts[1..])
  }

  lemma {:induction false} DigitsOfPrefix(s: string, k: nat)
    requires Digits(s) <= k <= |s|
    ensures Digits(s[..k]) == Digits(s)
  {
    if |s| > 0 && IsDigit(s[0]) {
      assert s[..k][1..] == s[1..][..k - 1];
      DigitsOfPrefix(s[1..], k - 1);
    }
  }

  lemma {:induction false} DigitsThen(d: string, rest: string)
    requires AllDigits(d) && (|rest| > 0 ==> !IsDigit(rest[0]))
    ensures Digits(d + rest) == |d|
  {
    if |d| == 0 {
      assert d + rest == rest;
    } else {
      assert (d + rest)[1..] == d[1..] + rest;
      DigitsThen(d[1..], rest);
    }
  }

  lemma SkipSpaceTight(s: string)
    requires Tight(s)
    ensures SkipSpace(s) == s
  {
  }

  lemma ReadSkips(s: string)
    ensures Read(SkipSpace(s)) == Read(s)
  {
    SkipSpaceTight(SkipSpace(s));
  }

  lemma ReadTight(s: string)
    requires Tight(s) && Digits(s) > 0
    ensures Read(s) == AddTo(Weighted(s[..Digits(s)], TokenAt(s).0), Read(s[TokenAt(s).1..]))
  {
    SkipSpaceTight(s);
    TokensStep(s);
    hide Weighted, TokenAt, Digits, SkipSpace, ReadTokens, AddTo;
  }

  lemma TokensStep(s: string)
    requires Digits(s) > 0
    ensures ReadTokens(s) == AddTo(Weighted(s[..Digits(s)], TokenAt(s).0), Read(s[TokenAt(s).1..]))
  {
    hide Weighted, TokenAt, Digits, SkipSpace, Read, AddTo;
  }

  lemma TotalStep(g: nat, part: string, rest: seq<string>)
    requires g + 1 + |rest| == GROUPS
    ensures Total(g, [part] + rest) == PartValue(g, part) + Total(g + 1, rest)
  {
    hide PartValue;
    assert ([part] + rest)[1..] == rest;
  }

  lemma EmptyPart(g: nat)
    requires g < GROUPS
    ensures PartValue(g, "") == 0
  {
    assert Num("") == 0;
  }

  /** The captured parts add up to the duration that the text denotes. */
  lemma {:induction false} MunchValue(g: nat, s: string)
    requires g <= GROUPS && (g == GROUPS || Tight(s)) && Munch(g, s).Some?
    ensures Read(s) == Some(Total(g, Munch(g, s).value))
    decreases GROUPS - g
  {
    hide TokenAt, Digits, IsBlank, SkipSpace, Total, PartValue, Read, Munch;
    if g == GROUPS {
      NothingLeft(s);
    } else {
      EmptyPart(g);
      MunchStep(g, s);
      var (part, rest) := if s != "" && TokenAt(s).0 == g then (s[..TokenAt(s).1], AfterGroup(g, s[TokenAt(s).1..])) else ("", s);
      if s != "" && TokenAt(s).0 == g {
        TokenValue(g, s);
      }
      if part != "" && g + 1 < GROUPS {
        AfterGroupTight(g, s[|part|..]);
        ReadSkips(s[|part|..]);
      }
      MunchValue(g + 1, rest);
      TotalStep(g, part, Munch(g + 1, rest).value);
    }
  }

  lemma NothingLeft(s: string)
    requires Munch(GROUPS, s).Some?
    ensures s == "" && Munch(GROUPS, s) == Some([]) && Read(s) == Some(0) && Total(GROUPS, []) == 0
  {
  }

  lemma TokenValue(g: nat, s: string)
    requires g < GROUPS && Tight(s) && Digits(s) > 0 && TokenAt(s).0 == g
    ensures var k := TokenAt(s).1;
            Read(s) == AddTo(PartValue(g, s[..k]), Read(s[k..]))
  {
    hide Digits, Read, Weighted, TokenAt, SkipSpace, IsBlank;
    var k := TokenAt(s).1;
    ReadTight(s);
    DigitsOfPrefix(s, k);
    assert s[..k][..Digits(s)] == s[..Digits(s)];
  }

  // ---- the normal form ----

  /** A part as it is captured: empty, or a number with its unit; seconds may lack theirs. */
  predicate IsPart(g: nat, part: string)
    requires g < GROUPS
  {
    part != "" ==> Digits(part) > 0 && (part[Digits(part)..] == Unit(g) || (g == SECONDS && Digits(part) == |part|))
  }

  predicate AllParts(g: nat, parts: seq<string>)
    requires g + |parts| == GROUPS
    decreases |parts|
  {
    |parts| > 0 ==> IsPart(g, parts[0]) && AllParts(g + 1, parts[1..])
  }

  predicate Canonical(g: nat, parts: seq<string>)
    requires g + |parts| == GROUPS
    decreases |parts|
  {
    |parts| > 0 ==>
      && (parts[0] != "" ==> Digits(parts[0]) > 0 && parts[0][Digits(parts[0])..] == Unit(g))
      && Canonical(g + 1, parts[1..])
  }

  lemma TokenIsPart(s: string)
    requires Digits(s) > 0
    ensures var (u, k) := TokenAt(s);
            k > 0 && IsPart(u, s[..k])
  {
    var n := Digits(s);
    var (u, k) := TokenAt(s);
    DigitsOfPrefix(s, k);
    assert s[..k][n..] == s[n..][..k - n];
    hide Digits;
    assert s[n..][..k - n] == Unit(u) || (u == SECONDS && k == n);
  }

  lemma {:induction false} MunchParts(g: nat, s: string)
    requires g <= GROUPS && Munch(g, s).Some?
    ensures AllParts(g, Munch(g, s).value)
    ensures s != "" ==> Concat(Munch(g, s).value) != ""
    decreases GROUPS - g
  {
    hide TokenAt, Digits, Munch, IsPart;
    if g == GROUPS {
      NothingLeft(s);
    } else {
      MunchStep(g, s);
      if s != "" {
        TokenIsPart(s);
      }
      var (part, rest) := if s != "" && TokenAt(s).0 == g then (s[..TokenAt(s).1], AfterGroup(g, s[TokenAt(s).1..])) else ("", s);
      MunchParts(g + 1, rest);
      assert ([part] + Munch(g + 1, rest).value)[1..] == Munch(g + 1, rest).value;
      assert IsPart(g, "") by { NoPart(g); }
    }
  }

  lemma NoPart(g: nat)
    requires g < GROUPS
    ensures IsPart(g, "")
  {
  }

  lemma NumberOnly(part: string)
    requires Digits(part) == |part|
    ensures AllDigits(part)
  {
    forall i | 0 <= i < |part|
      ensures IsDigit(part[i])
    {
      DigitsAreDigits(part, i);
    }
  }

  lemma WithUnitPart(part: string)
    requires IsPart(SECONDS, part)
    ensures var p := WithUnit(part);
            && (p == "" <==> part == "")
            && (p != "" ==> Digits(p) > 0 && p[Digits(p)..] == Unit(SECONDS))
            && PartValue(SECONDS, p) == PartValue(SECONDS, part)
  {
    if part != "" {
      var n := Digits(part);
      if part[n..] == "s" {
        assert part[|part| - 1] == part[n..][0];
      } else {
        DigitsAreDigits(part, n - 1);
        NumberOnly(part);
        assert part[..n] == part;
        DigitsThen(part, "s");
        hide Weighted, Digits;
        assert (part + "s")[..n] == part && (part + "s")[n..] == "s";
      }
    }
  }

  /** The parts with the unit of the seconds filled in. */
  function Normal(g: nat, parts: seq<string>): (r: seq<string>)
    requires g + |parts| == GROUPS
    ensures |r| == |parts|
    decreases |parts|
  {
    if |parts| == 0 then [] else [if g == SECONDS then WithUnit(parts[0]) else parts[0]] + Normal(g + 1, parts[1..])
  }

  lemma {:induction false} NormalAt(g: nat, parts: seq<string>)
    requires g + |parts| == GROUPS
    ensures Normal(g, parts) == if g <= SECONDS then parts[SECONDS - g := WithUnit(parts[SECONDS - g])] else parts
    decreases |parts|
  {
    if |parts| > 0 {
      NormalAt(g + 1, parts[1..]);
      assert parts == [parts[0]] + parts[1..];
    }
  }

  lemma {:induction false} NormalIsCanonical(g: nat, parts: seq<string>)
    requires g + |parts| == GROUPS && AllParts(g, parts)
    ensures Canonical(g, Normal(g, parts))
    decreases |parts|
  {
    hide WithUnit, Digits, Unit, PartValue;
    if |parts| > 0 {
      NormalIsCanonical(g + 1, parts[1..]);
      if g == SECONDS {
        WithUnitPart(parts[0]);
      }
    }
  }

  lemma {:induction false} NormalKeepsTotal(g: nat, parts: seq<string>)
    requires g + |parts| == GROUPS && AllParts(g, parts)
    ensures Total(g, Normal(g, parts)) == Total(g, parts)
    decreases |parts|
  {
    hide WithUnit, Digits, Unit, PartValue, IsPart;
    if |parts| > 0 {
      NormalKeepsTotal(g + 1, parts[1..]);
      if g == SECONDS {
        WithUnitPart(parts[0]);
      }
    }
  }

  lemma {:induction false} NormalKeepsText(g: nat, parts: seq<string>)
    requires g + |parts| == GROUPS && AllParts(g, parts)
    ensures Concat(Normal(g, parts)) == "" <==> Concat(parts) == ""
    decreases |parts|
  {
    hide WithUnit, Digits, Unit, PartValue, IsPart;
    if |parts| > 0 {
      NormalKeepsText(g + 1, parts[1..]);
      if g == SECONDS {
        WithUnitPart(parts[0]);
      }
    }
  }

  lemma {:induction false} CanonicalFixed(g: nat, parts: seq<string>)
    requires g + |parts| == GROUPS && Canonical(g, parts)
    ensures Normal(g, parts) == parts
    decreases |parts|
  {
    if |parts| > 0 {
      CanonicalFixed(g + 1, parts[1..]);
      var p := parts[0];
      if g == SECONDS && p != "" {
        assert p[|p| - 1] == p[Digits(p)..][0];
      }
      assert parts == [p] + parts[1..];
    }
  }

  /** Reading a number that is followed by its unit and then by another number or nothing. */
  lemma TokenOf(g: nat, d: string, rest: string)
    requires g < GROUPS && |d| > 0 && AllDigits(d) && (rest != "" ==> IsDigit(rest[0]))
    ensures var s := d + Unit(g) + rest;
            Digits(s) == |d| && TokenAt(s) == (g, |d| + |Unit(g)|)
  {
    var s, after := d + Unit(g) + rest, Unit(g) + rest;
    assert s == d + after;
    assert !IsDigit(after[0]);
    DigitsThen(d, after);
    assert s[|d|..] == after;
    hide Digits;
    UnitOfUnit(g, rest);
  }

  lemma UnitOfUnit(g: nat, rest: string)
    requires g < GROUPS && (rest != "" ==> IsDigit(rest[0]))
    ensures UnitAt(Unit(g) + rest) == (g, |Unit(g)|)
  {
    var after := Unit(g) + rest;
    assert after[0] == Unit(g)[0];
    if |Unit(g)| == 1 && rest != "" {
      assert after[1] == rest[0];
    }
  }

  /** The text of canonical parts reads back as the same parts. */
  lemma {:induction false} Reparse(g: nat, parts: seq<string>)
    requires g + |parts| == GROUPS && Canonical(g, parts)
    ensures Munch(g, Concat(parts)) == Some(parts)
    ensures Concat(parts) != "" ==> IsDigit(Concat(parts)[0])
    decreases |parts|
  {
    hide Digits, TokenAt, Munch, IsBlank, SkipSpace, Unit;
    if |parts| == 0 {
      assert Munch(GROUPS, "") == Some([]) by { NothingMunched(); }
    } else {
      var p, c := parts[0], Concat(parts[1..]);
      Reparse(g + 1, parts[1..]);
      assert parts == [p] + parts[1..];
      MunchStep(g, p + c);
      if p == "" {
        assert p + c == c;
        if c != "" {
          NotTooLate(g + 1, c);
        }
      } else {
        PartText(g, p, c);
        var s := p + c;
        assert s[..|p|] == p && s[|p|..] == c;
        if c != "" {
          DigitIsNoBlank(c[0]);
        }
        TightUnchanged(g, c);
      }
    }
  }

  lemma NothingMunched()
    ensures Munch(GROUPS, "") == Some([])
  {
  }

  lemma PartText(g: nat, p: string, c: string)
    requires g < GROUPS && p != "" && Digits(p) > 0 && p[Digits(p)..] == Unit(g) && (c != "" ==> IsDigit(c[0]))
    ensures IsDigit(p[0]) && Digits(p + c) > 0 && TokenAt(p + c) == (g, |p|)
  {
    hide Digits, TokenAt, Unit;
    var d := p[..Digits(p)];
    assert p == d + Unit(g) && d[0] == p[0];
    DigitsOfPrefix(p, |d|);
    NumberOnly(d);
    TokenOf(g, d, c);
  }

  lemma NotTooLate(g: nat, s: string)
    requires g <= GROUPS && s != "" && Munch(g, s).Some?
    ensures Digits(s) > 0 && TokenAt(s).0 >= g
  {
  }

  // ---- ParseTime ----

  /** What the whole pattern captures; after leading space there can be no years. */
  lemma Captures(s: string)
    requires s != ""
    ensures Match(0, s) == if !IsBlank(s[0]) then Munch(0, s)
                           else match Munch(1, SkipSpace(s)) case None => None case Some(r) => Some([""] + r)
  {
    if IsBlank(s[0]) {
      MatchIsMunch(1, SkipSpace(s));
      MatchStep(0, s);
      assert Digits(s) == 0 && MatchGroup(0, s) == None;
      hide Match, MatchGroup, Munch, SkipSpace, IsBlank;
    } else {
      MatchIsMunch(0, s);
    }
  }

  lemma CapturesSound(s: string)
    requires SkipSpace(s) != "" && Match(0, s).Some?
    ensures var parts := Match(0, s).value;
            AllParts(0, parts) && Concat(parts) != "" && Read(s) == Some(Total(0, parts))
  {
    hide *;
    assert s != "" && (IsBlank(s[0]) || Tight(s)) by { NotBlank(s); }
    Captures(s);
    var parts := Match(0, s).value;
    if IsBlank(s[0]) {
      var t := SkipSpace(s);
      var rest := Munch(1, t).value;
      assert Tight(t) by { SkipSpaceIsTight(s); }
      MunchParts(1, t);
      MunchValue(1, t);
      ReadSkips(s);
      EmptyPart(0);
      TotalStep(0, "", rest);
      NoYears(rest);
    } else {
      SkipSpaceTight(s);
      MunchParts(0, s);
      MunchValue(0, s);
    }
  }

  lemma NotBlank(s: string)
    requires SkipSpace(s) != ""
    ensures s != "" && (IsBlank(s[0]) || Tight(s))
  {
  }

  lemma SkipSpaceIsTight(s: string)
    ensures Tight(SkipSpace(s))
  {
  }

  lemma NoYears(rest: seq<string>)
    requires |rest| == GROUPS - 1 && AllParts(1, rest)
    ensures AllParts(0, [""] + rest) && Concat([""] + rest) == Concat(rest)
  {
    assert ([""] + rest)[1..] == rest;
    hide AllParts;
    assert AllParts(0, [""] + rest) by { FirstEmpty(rest); }
  }

  lemma FirstEmpty(rest: seq<string>)
    requires |rest| == GROUPS - 1 && AllParts(1, rest)
    ensures AllParts(0, [""] + rest)
  {
    assert ([""] + rest)[1..] == rest;
  }

  /** Every accepted time is written in a non-empty normal form that is accepted unchanged and
      denotes the same duration. */
  lemma ParseTimeSound(s: string)
    requires ParseTime(s).Some?
    ensures var t := ParseTime(s).value;
            && t != "" && ParseTime(t) == Some(t)
            && Read(s).Some? && Read(t) == Read(s)
  {
    CapturesSound(s);
    var units := Match(0, s).value;
    var parts, t := Normal(0, units), ParseTime(s).value;
    NormalAt(0, units);
    NormalIsCanonical(0, units);
    NormalKeepsTotal(0, units);
    NormalKeepsText(0, units);
    assert t == Concat(parts);
    Reparse(0, parts);
    DigitIsNoBlank(t[0]);
    Captures(t);
    CanonicalFixed(0, parts);
    NormalAt(0, parts);
    SkipSpaceTight(t);
    MunchValue(0, t);
    hide Match, Munch, Read, Total, Normal, Canonical, AllParts, IsBlank, SkipSpace, WithUnit, Concat;
  }
}
