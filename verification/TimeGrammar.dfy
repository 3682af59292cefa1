/** Which texts are times, as the language of the pattern, and what is written for them. */
module TimeGrammar {
  import opened Text
  import opened TimeFormat

  const UNITS: seq<string> := ["y", "M", "w", "d", "h", "m", "s", "ms"]

  const BLANKS: string := "\t\n\U{0C}\r "

  predicate AllBlank(s: string) { forall i :: 0 <= i < |s| ==> s[i] in BLANKS }

  /** A number with its unit; the unit of seconds may be left out. */
  ghost predicate IsAmount(g: nat, s: string)
    requires g < 8
  {
    exists d :: |d| > 0 && AllDigits(d) && (s == d + UNITS[g] || (g == 6 && s == d))
  }

  /** A text is an amount in the `g`-th unit, or none, blanks unless the unit is the last, and the
      rest. */
  ghost predicate Parted(g: nat, s: string, amount: string, gap: string, rest: string)
    requires g < 8
  {
    && s == amount + gap + rest
    && (amount == "" || IsAmount(g, amount))
    && AllBlank(gap) && (g == 7 ==> gap == "")
  }

  /** A text is a list of amounts, from the `g`-th unit on and in the order of the units. */
  ghost predicate Spells(g: nat, s: string)
    requires g <= 8
    decreases 8 - g
  {
    if g == 8 then s == "" else exists amount, gap, rest :: Parted(g, s, amount, gap, rest) && Spells(g + 1, rest)
  }

  lemma SpellsParts(g: nat, s: string) returns (amount: string, gap: string, rest: string)
    requires g < 8 && Spells(g, s)
    ensures Parted(g, s, amount, gap, rest) && Spells(g + 1, rest)
  {
    hide Parted;
    amount, gap, rest :| Parted(g, s, amount, gap, rest) && Spells(g + 1, rest);
  }

  lemma SpellsOf(g: nat, s: string, amount: string, gap: string, rest: string)
    requires g < 8 && Parted(g, s, amount, gap, rest) && Spells(g + 1, rest)
    ensures Spells(g, s)
  {
    hide Parted;
  }

  lemma BlankIs(c: char)
    ensures c in BLANKS <==> IsBlank(c)
  {
    var b := BLANKS;
    assert b[0] == '\t' && b[1] == '\n' && b[2] == '\U{0C}' && b[3] == '\r' && b[4] == ' ' && |b| == 5;
  }

  lemma UnitIs(g: nat)
    requires g < 8
    ensures Unit(g) == UNITS[g] && |UNITS[g]| > 0 && !IsDigit(UNITS[g][0])
  {
  }

  // ---- blanks ----

  lemma {:induction false} SkipBlanks(gap: string, rest: string)
    requires AllBlank(gap)
    ensures SkipSpace(gap + rest) == SkipSpace(rest)
  {
    if |gap| == 0 {
      assert gap + rest == rest;
    } else {
      BlankIs(gap[0]);
      assert (gap + rest)[1..] == gap[1..] + rest;
      SkipBlanks(gap[1..], rest);
    }
  }

  lemma {:induction false} Skipped(s: string) returns (gap: string)
    ensures AllBlank(gap) && s == gap + SkipSpace(s)
  {
    if |s| > 0 && IsBlank(s[0]) {
      var more := Skipped(s[1..]);
      BlankIs(s[0]);
      gap := [s[0]] + more;
      assert s == [s[0]] + s[1..];
    } else {
      gap := "";
    }
  }

  lemma SkipsNothing(s: string)
    requires |s| > 0 && !IsBlank(s[0])
    ensures SkipSpace(s) == s
  {
  }

  lemma AmountStart(g: nat, s: string, rest: string)
    requires g < 8 && IsAmount(g, s)
    ensures |s| > 0 && SkipSpace(s + rest) == s + rest
  {
    var d :| |d| > 0 && AllDigits(d) && (s == d + UNITS[g] || (g == 6 && s == d));
    assert s[0] == d[0] && IsDigit(d[0]);
    DigitIsNoBlank(d[0]);
    SkipsNothing(s + rest);
  }

  lemma NothingFirst(g: nat, s: string)
    requires g < 8
    ensures Parted(g, s, "", "", s)
  {
    assert s == "" + "" + s;
  }

  /** A text that starts with an amount, or else with a gap. */
  lemma PartedStart(g: nat, s: string, amount: string, gap: string, rest: string)
    requires g < 8 && Parted(g, s, amount, gap, rest)
    ensures SkipSpace(s) == if amount == "" then SkipSpace(rest) else s
  {
    hide SkipSpace, IsAmount, AllBlank;
    if amount == "" {
      assert s == gap + rest;
      SkipBlanks(gap, rest);
    } else {
      assert s == amount + (gap + rest);
      AmountStart(g, amount, gap + rest);
    }
  }

  /** Blanks in front make no difference to what follows. */
  lemma {:induction false} SpellsSkipped(g: nat, s: string)
    requires g <= 8 && Spells(g, s)
    ensures Spells(g, SkipSpace(s))
    decreases 8 - g
  {
    if g < 8 {
      hide Spells, SkipSpace, Parted;
      var amount, gap, rest := SpellsParts(g, s);
      PartedStart(g, s, amount, gap, rest);
      if amount == "" {
        SpellsSkipped(g + 1, rest);
        NothingFirst(g, SkipSpace(rest));
        SpellsOf(g, SkipSpace(rest), "", "", SkipSpace(rest));
      }
    }
  }

  // ---- everything in the language matches ----

  lemma {:induction false} SecondsFound(s: string, k: nat, n: nat)
    requires 0 < k <= n <= |s| && Take(6, s, k).Some?
    ensures MatchSeconds(s, n).Some?
  {
    hide Take;
    if k < n {
      SecondsFound(s, k, n - 1);
    }
    SecondsStep(s, n);
  }

  lemma {:induction false} DigitsAtLeast(d: string, rest: string)
    requires AllDigits(d)
    ensures Digits(d + rest) >= |d|
  {
    if |d| > 0 {
      assert (d + rest)[1..] == d[1..] + rest;
      DigitsAtLeast(d[1..], rest);
    }
  }

  lemma AfterAmount(g: nat, gap: string, rest: string)
    requires g < 8 && AllBlank(gap) && (g == 7 ==> gap == "") && Spells(g + 1, rest)
    ensures Spells(g + 1, AfterGroup(g, gap + rest))
  {
    if g < 7 {
      SkipBlanks(gap, rest);
      SpellsSkipped(g + 1, rest);
    } else {
      assert gap + rest == rest;
    }
  }

  /** A number with its unit at the start is taken. */
  lemma UnitTaken(g: nat, d: string, unit: string, tail: string)
    requires g < 8 && |d| > 0 && AllDigits(d) && unit == UNITS[g] && Match(g + 1, AfterGroup(g, tail)).Some?
    ensures MatchGroup(g, d + unit + tail).Some?
  {
    UnitIs(g);
    hide Match, MatchGroup, Take, MatchSeconds, AfterGroup, Digits, Unit, UNITS;
    var s, after, k := d + unit + tail, unit + tail, |d| + |unit|;
    assert s == d + after && s[|d|..] == after && s[k..] == tail;
    assert after[0] == unit[0] && unit <= after;
    DigitsThen(d, after);
    GroupStep(g, s);
    TakeStep(g, s, k);
    if g == 6 {
      SecondsLetter(unit);
      assert s[|d|] == after[0];
    }
  }

  lemma SecondsLetter(unit: string)
    requires unit == UNITS[6]
    ensures |unit| == 1 && unit[0] == 's'
  {
  }

  /** So is a bare number of seconds. */
  lemma BareTaken(d: string, tail: string)
    requires |d| > 0 && AllDigits(d) && Match(7, AfterGroup(6, tail)).Some?
    ensures MatchGroup(6, d + tail).Some?
  {
    hide Match, MatchGroup, Take, MatchSeconds, AfterGroup, Digits, Unit, UNITS;
    var s := d + tail;
    assert s[|d|..] == tail;
    TakeStep(6, s, |d|);
    DigitsAtLeast(d, tail);
    SecondsFound(s, |d|, Digits(s));
    GroupStep(6, s);
  }

  lemma AmountTaken(g: nat, amount: string, tail: string)
    requires g < 8 && IsAmount(g, amount) && Match(g + 1, AfterGroup(g, tail)).Some?
    ensures MatchGroup(g, amount + tail).Some?
  {
    hide Match, MatchGroup, AfterGroup;
    var d :| |d| > 0 && AllDigits(d) && (amount == d + UNITS[g] || (g == 6 && amount == d));
    if amount == d + UNITS[g] {
      UnitTaken(g, d, UNITS[g], tail);
    } else {
      BareTaken(d, tail);
    }
  }

  lemma NothingSpelled(s: string)
    requires Spells(8, s)
    ensures Match(8, s).Some?
  {
  }

  lemma {:induction false} SpelledMatches(g: nat, s: string)
    requires g <= 8 && Spells(g, s)
    ensures Match(g, s).Some?
    decreases 8 - g
  {
    hide Match, MatchGroup, AfterGroup, Spells, IsAmount, AllBlank;
    if g == 8 {
      NothingSpelled(s);
    } else {
      var amount, gap, rest := SpellsParts(g, s);
      var tail := gap + rest;
      assert s == amount + tail;
      AfterAmount(g, gap, rest);
      SpelledMatches(g + 1, AfterGroup(g, tail));
      MatchStep(g, s);
      if amount == "" {
        assert s == tail;
      } else {
        AmountTaken(g, amount, tail);
      }
    }
  }

  // ---- everything that matches is in the language ----

  /** What is left without the blanks. */
  function Stripped(s: string): string {
    if |s| == 0 then "" else (if s[0] in BLANKS then "" else [s[0]]) + Stripped(s[1..])
  }

  lemma {:induction false} StrippedConcat(a: string, b: string)
    ensures Stripped(a + b) == Stripped(a) + Stripped(b)
  {
    if |a| == 0 {
      assert a + b == b;
    } else {
      assert (a + b)[0] == a[0] && (a + b)[1..] == a[1..] + b;
      StrippedConcat(a[1..], b);
    }
  }

  lemma {:induction false} StrippedBlank(s: string)
    requires AllBlank(s)
    ensures Stripped(s) == ""
  {
    if |s| > 0 {
      StrippedBlank(s[1..]);
    }
  }

  lemma {:induction false} StrippedTight(s: string)
    requires forall i :: 0 <= i < |s| ==> s[i] !in BLANKS
    ensures Stripped(s) == s
  {
    hide BLANKS;
    if |s| > 0 {
      StrippedTight(s[1..]);
      assert s == [s[0]] + s[1..];
    }
  }

  lemma {:induction false} SecondsTaken(s: string, n: nat) returns (k: nat)
    requires n <= |s| && MatchSeconds(s, n).Some?
    ensures 0 < k <= n && Take(6, s, k).Some? && MatchSeconds(s, n) == Take(6, s, k)
  {
    hide Take;
    SecondsStep(s, n);
    if Take(6, s, n).Some? {
      k := n;
    } else {
      k := SecondsTaken(s, n - 1);
    }
  }

  lemma DigitsPrefix(s: string, k: nat)
    requires k <= Digits(s)
    ensures AllDigits(s[..k])
  {
    forall i | 0 <= i < k
      ensures IsDigit(s[..k][i])
    {
      DigitsAreDigits(s, i);
    }
  }

  /** What a group takes is an amount. */
  lemma TakenIsAmount(g: nat, s: string) returns (k: nat)
    requires g < 8 && MatchGroup(g, s).Some?
    ensures 0 < k <= |s| && Take(g, s, k).Some? && MatchGroup(g, s) == Take(g, s, k) && IsAmount(g, s[..k])
  {
    hide Match, Take, MatchSeconds, MatchGroup, AfterGroup, Unit, UNITS, Digits, IsAmount;
    var n := Digits(s);
    StartsWithNumber(g, s);
    if g == SECONDS {
      k := SecondsAmount(s);
    } else {
      GroupStep(g, s);
      DigitsPrefix(s, n);
      k := n + |Unit(g)|;
      UnitAfter(s, n, Unit(g));
      AmountOf(g, s[..n]);
    }
  }

  lemma AmountOf(g: nat, d: string)
    requires g < 8 && |d| > 0 && AllDigits(d)
    ensures IsAmount(g, d + Unit(g))
  {
    UnitIs(g);
    hide Unit;
  }

  lemma UnitAfter(s: string, n: nat, unit: string)
    requires n <= |s| && unit <= s[n..]
    ensures n + |unit| <= |s| && s[..n + |unit|] == s[..n] + unit
  {
    assert s[n..][..|unit|] == unit;
    assert s[..n + |unit|] == s[..n] + s[n..][..|unit|];
  }

  lemma StartsWithNumber(g: nat, s: string)
    requires g < 8 && MatchGroup(g, s).Some?
    ensures Digits(s) > 0
  {
    hide Take, MatchSeconds, Digits;
  }

  lemma SecondsAmount(s: string) returns (k: nat)
    requires Digits(s) > 0 && MatchGroup(6, s).Some?
    ensures 0 < k <= |s| && Take(6, s, k).Some? && MatchGroup(6, s) == Take(6, s, k) && IsAmount(6, s[..k])
  {
    hide Match, Take, MatchSeconds, AfterGroup, Digits, MatchGroup;
    var n := Digits(s);
    GroupStep(6, s);
    DigitsPrefix(s, n);
    if n < |s| && s[n] == 's' && Take(6, s, n + 1).Some? {
      k := n + 1;
      assert s[..k] == s[..n] + "s" && UNITS[6] == "s";
    } else {
      k := SecondsTaken(s, n);
      DigitsPrefix(s, k);
    }
  }

  lemma AmountHasNoBlank(g: nat, s: string)
    requires g < 8 && IsAmount(g, s)
    ensures forall i :: 0 <= i < |s| ==> s[i] !in BLANKS
  {
    var d :| |d| > 0 && AllDigits(d) && (s == d + UNITS[g] || (g == 6 && s == d));
    forall i | 0 <= i < |s|
      ensures s[i] !in BLANKS
    {
      BlankIs(s[i]);
      if i < |d| {
        DigitIsNoBlank(d[i]);
      } else {
        UnitHasNoBlank(g, i - |d|);
      }
    }
  }

  lemma UnitHasNoBlank(g: nat, i: nat)
    requires g < 8 && i < |UNITS[g]|
    ensures !IsBlank(UNITS[g][i])
  {
  }

  /** The gap after an amount. */
  lemma GapAfter(g: nat, s: string) returns (gap: string)
    requires g < 8
    ensures AllBlank(gap) && (g == 7 ==> gap == "") && s == gap + AfterGroup(g, s)
  {
    if g < 7 {
      gap := Skipped(s);
    } else {
      gap := "";
    }
  }

  lemma StrippedAmount(g: nat, amount: string, gap: string, rest: string)
    requires g < 8 && (amount == "" || IsAmount(g, amount)) && AllBlank(gap)
    ensures Stripped(amount + gap + rest) == amount + Stripped(rest)
  {
    if amount != "" {
      AmountHasNoBlank(g, amount);
    }
    StrippedTight(amount);
    StrippedBlank(gap);
    StrippedConcat(amount + gap, rest);
    StrippedConcat(amount, gap);
    hide Stripped, IsAmount, AllBlank;
    assert amount + "" == amount;
  }

  /** The amount that the `g`-th group takes, or none, and what the groups after it match. */
  lemma MatchParts(g: nat, s: string) returns (amount: string, gap: string, rest: string)
    requires g < 8 && Match(g, s).Some?
    ensures Parted(g, s, amount, gap, rest) && Match(g + 1, rest).Some? && Match(g, s) == Some([amount] + Match(g + 1, rest).value)
  {
    hide Match, MatchGroup, Take, AfterGroup, IsAmount;
    MatchStep(g, s);
    var without := Match(g + 1, AfterGroup(g, s));
    if without.None? {
      var k := TakenIsAmount(g, s);
      TakeStep(g, s, k);
      amount, rest := s[..k], AfterGroup(g, s[k..]);
      gap := GapAfter(g, s[k..]);
      assert s == amount + (gap + rest) == amount + gap + rest;
    } else {
      amount, rest := "", AfterGroup(g, s);
      gap := GapAfter(g, s);
      assert s == amount + gap + rest;
    }
  }

  lemma {:induction false} MatchIsSpelled(g: nat, s: string)
    requires g <= 8 && Match(g, s).Some?
    ensures Spells(g, s) && Concat(Match(g, s).value) == Stripped(s)
    decreases 8 - g
  {
    if g == 8 {
      assert Stripped("") == "" && Concat([]) == "";
    } else {
      hide Match, Stripped, IsAmount, Spells;
      var amount, gap, rest := MatchParts(g, s);
      MatchIsSpelled(g + 1, rest);
      SpellsOf(g, s, amount, gap, rest);
      var parts := Match(g + 1, rest).value;
      assert ([amount] + parts)[1..] == parts;
      StrippedAmount(g, amount, gap, rest);
    }
  }

  // ---- ParseTime ----

  lemma {:induction false} BlankExactly(s: string)
    ensures SkipSpace(s) == "" <==> AllBlank(s)
  {
    if |s| > 0 {
      BlankIs(s[0]);
      BlankExactly(s[1..]);
      assert forall i :: 0 < i < |s| ==> s[i] == s[1..][i - 1];
    }
  }

  /** A text is accepted if and only if it is not blank and is spelled as a time. */
  lemma AcceptedExactly(s: string)
    ensures ParseTime(s).Some? <==> !AllBlank(s) && Spells(0, s)
  {
    hide Match, Spells, AllBlank;
    BlankExactly(s);
    if Match(0, s).Some? {
      MatchIsSpelled(0, s);
    }
    if Spells(0, s) {
      SpelledMatches(0, s);
    }
  }

  lemma {:induction false} ConcatAppend(a: seq<string>, b: seq<string>)
    ensures Concat(a + b) == Concat(a) + Concat(b)
  {
    if |a| == 0 {
      assert a + b == b;
    } else {
      assert (a + b)[0] == a[0] && (a + b)[1..] == a[1..] + b;
      ConcatAppend(a[1..], b);
    }
  }

  lemma ConcatOne(x: string)
    ensures Concat([x]) == x
  {
    assert [x][1..] == [] && Concat([]) == "";
  }

  lemma ConcatUpdate(parts: seq<string>, i: nat, x: string)
    requires i < |parts|
    ensures Concat(parts[i := x]) == Concat(parts[..i]) + x + Concat(parts[i + 1..])
  {
    hide Concat;
    assert parts[i := x] == parts[..i] + [x] + parts[i + 1..];
    ConcatAppend(parts[..i] + [x], parts[i + 1..]);
    ConcatAppend(parts[..i], [x]);
    ConcatOne(x);
  }

  lemma CapturedText(s: string)
    requires ParseTime(s).Some?
    ensures Match(0, s).Some?
    ensures var units := Match(0, s).value;
            Concat(units) == Stripped(s) && ParseTime(s).value == Concat(units[6 := WithUnit(units[6])])
  {
    hide Match, Stripped, SkipSpace, Concat, Spells, WithUnit;
    MatchIsSpelled(0, s);
  }

  /** What is written is the text without its blanks, with an `s` put in where seconds lack it. */
  lemma WrittenText(s: string) returns (i: nat)
    requires ParseTime(s).Some?
    ensures i <= |Stripped(s)|
    ensures ParseTime(s).value == Stripped(s) || ParseTime(s).value == Stripped(s)[..i] + "s" + Stripped(s)[i..]
  {
    hide Match, Stripped, SkipSpace, Concat, ParseTime;
    CapturedText(s);
    var units, text := Match(0, s).value, Stripped(s);
    if WithUnit(units[6]) == units[6] {
      assert units[6 := units[6]] == units;
      i := 0;
    } else {
      ConcatUpdate(units, 6, units[6] + "s");
      ConcatUpdate(units, 6, units[6]);
      assert units[6 := units[6]] == units;
      var a, b := Concat(units[..6]) + units[6], Concat(units[7..]);
      i := |a|;
      assert text == a + b && text[..i] == a && text[i..] == b;
      assert Concat(units[..6]) + (units[6] + "s") + b == a + "s" + b;
    }
  }
}
