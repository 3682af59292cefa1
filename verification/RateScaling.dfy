/** Request rates such as `10r/s`, and dividing one among the replicas of the controller. The
    division is exact here. */
module RateScaling {
  import opened Text

  datatype Rate = PerSecond(number: nat) | PerMinute(number: nat)

  /** The largest number that `strconv.Atoi` accepts. */
  const MAX_INT := 0x7fff_ffff_ffff_ffff

  function Suffix(r: Rate): string { if r.PerSecond? then "r/s" else "r/m" }

  function Show(r: Rate): string { Dec(r.number) + Suffix(r) }

  /** A number directly followed by `r/s` or `r/m`, and nothing else. */
  function ReadRate(s: string): Option<Rate> {
    if |s| < 4 then None
    else
      var d, u := s[..|s| - 3], s[|s| - 3..];
      if !AllDigits(d) || Num(d) > MAX_INT then None
      else if u == "r/s" then Some(PerSecond(Num(d)))
      else if u == "r/m" then Some(PerMinute(Num(d)))
      else None
  }

  function TrimRight(s: string): string { if |s| > 0 && IsSpace(s[|s| - 1]) then TrimRight(s[..|s| - 1]) else s }

  function ParseRequestRate(s: string): Option<string> {
    var t := TrimRight(TrimLeft(s));
    match ReadRate(t)
    case None => None
    case Some(r) => if r.number == 0 then None else Some(t)
  }

  // ---- what is accepted ----

  predicate AllSpace(s: string) { forall i :: 0 <= i < |s| ==> IsSpace(s[i]) }

  /** A number from one to the largest integer, directly followed by its unit. */
  ghost predicate IsRequestRate(t: string) {
    exists d :: |d| > 0 && AllDigits(d) && 0 < Num(d) <= MAX_INT && (t == d + "r/s" || t == d + "r/m")
  }

  /** The text has the rate between spaces. */
  ghost predicate Between(s: string, t: string) {
    exists before, after :: s == before + t + after && AllSpace(before) && AllSpace(after)
  }

  lemma {:induction false} TrimmedLeft(s: string) returns (before: string)
    ensures AllSpace(before) && s == before + TrimLeft(s)
  {
    if |s| > 0 && IsSpace(s[0]) {
      var more := TrimmedLeft(s[1..]);
      before := [s[0]] + more;
      assert s == [s[0]] + s[1..];
    } else {
      before := "";
    }
  }

  lemma {:induction false} TrimmedRight(s: string) returns (after: string)
    ensures AllSpace(after) && s == TrimRight(s) + after
  {
    if |s| > 0 && IsSpace(s[|s| - 1]) {
      var more := TrimmedRight(s[..|s| - 1]);
      after := more + [s[|s| - 1]];
      assert s == s[..|s| - 1] + [s[|s| - 1]];
    } else {
      after := "";
    }
  }

  lemma {:induction false} TrimsLeft(before: string, t: string)
    requires AllSpace(before) && |t| > 0 && !IsSpace(t[0])
    ensures TrimLeft(before + t) == t
  {
    if |before| == 0 {
      assert before + t == t;
    } else {
      assert (before + t)[1..] == before[1..] + t;
      TrimsLeft(before[1..], t);
    }
  }

  lemma {:induction false} TrimsRight(t: string, after: string)
    requires AllSpace(after) && |t| > 0 && !IsSpace(t[|t| - 1])
    ensures TrimRight(t + after) == t
  {
    if |after| == 0 {
      assert t + after == t;
    } else {
      var s := t + after;
      assert s[..|s| - 1] == t + after[..|after| - 1];
      TrimsRight(t, after[..|after| - 1]);
    }
  }

  lemma DigitIsNoSpace(c: char)
    requires IsDigit(c)
    ensures !IsSpace(c)
  {
  }

  lemma RateIsRead(t: string)
    ensures IsRequestRate(t) <==> ReadRate(t).Some? && ReadRate(t).value.number > 0
    ensures IsRequestRate(t) ==> |t| > 0 && !IsSpace(t[0]) && !IsSpace(t[|t| - 1])
  {
    hide Num;
    if IsRequestRate(t) {
      var d :| |d| > 0 && AllDigits(d) && 0 < Num(d) <= MAX_INT && (t == d + "r/s" || t == d + "r/m");
      assert t[..|t| - 3] == d;
      var u := t[|t| - 3..];
      assert u == "r/s" || u == "r/m";
      assert t[0] == d[0] && t[|t| - 1] == u[2];
      DigitIsNoSpace(d[0]);
    }
    if ReadRate(t).Some? && ReadRate(t).value.number > 0 {
      var d := t[..|t| - 3];
      assert t == d + t[|t| - 3..];
    }
  }

  /** A text is accepted if and only if it is a rate between spaces, and what is accepted is that
      rate. */
  lemma RateAcceptedExactly(s: string, t: string)
    ensures ParseRequestRate(s) == Some(t) <==> IsRequestRate(t) && Between(s, t)
  {
    hide ReadRate, TrimLeft, TrimRight, IsRequestRate, AllSpace;
    var x := TrimRight(TrimLeft(s));
    RateIsRead(x);
    RateIsRead(t);
    var before := TrimmedLeft(s);
    var after := TrimmedRight(TrimLeft(s));
    assert s == before + (x + after) == before + x + after;
    if IsRequestRate(t) && Between(s, t) {
      var a, b :| s == a + t + b && AllSpace(a) && AllSpace(b);
      assert s == a + (t + b) && (t + b)[0] == t[0];
      TrimsLeft(a, t + b);
      TrimsRight(t, b);
    }
  }

  // ---- dividing ----

  /** Dividing the rate, first in its own unit and in the finer one if less than one is left. */
  method ScaleRate(s: string, replicas: int) returns (r: string)
    ensures r == Scaled(s, replicas)
  {
    if replicas < 1 {
      return s;
    }
    var rate := ReadRate(s);
    if rate.None? {
      return s;
    }
    var share: real := rate.value.number as real / replicas as real;
    var perSecond := rate.value.PerSecond?;
    if perSecond && share < 1.0 {
      share := share * 60.0;
      perSecond := false;
    }
    FloorShare(rate.value.number, replicas);
    var n := share.Floor;
    r := Show(if perSecond then PerSecond(n) else PerMinute(n));
  }

  function Share(r: Rate, replicas: nat): Rate
    requires replicas > 0
  {
    match r
    case PerMinute(a) => PerMinute(a / replicas)
    case PerSecond(a) => if a < replicas then PerMinute(60 * a / replicas) else PerSecond(a / replicas)
  }

  function Scaled(s: string, replicas: int): string {
    if replicas < 1 || ReadRate(s).None? then s else Show(Share(ReadRate(s).value, replicas))
  }

  lemma FloorShare(a: nat, n: nat)
    requires n > 0
    ensures var x := a as real / n as real;
            && x.Floor == a / n && (x < 1.0 <==> a < n)
            && (x * 60.0).Floor == 60 * a / n
  {
    FloorOf(a, n);
    FloorOf(60 * a, n);
    var x := a as real / n as real;
    assert (60 * a) as real == 60.0 * a as real;
    assert x * 60.0 == (60 * a) as real / n as real;
    if a < n {
      assert a as real < n as real;
    }
  }

  lemma {:induction false} ProductAsReal(q: nat, n: nat)
    ensures (q * n) as real == q as real * n as real
  {
    if q > 0 {
      ProductAsReal(q - 1, n);
      assert q * n == (q - 1) * n + n;
      assert q as real == (q - 1) as real + 1.0;
    }
  }

  lemma FloorOf(a: nat, n: nat)
    requires n > 0
    ensures (a as real / n as real).Floor == a / n
  {
    FloorOfSum(a / n, a % n, n);
    assert (a / n) * n + a % n == a;
  }

  lemma FloorOfSum(q: nat, r: nat, n: nat)
    requires r < n
    ensures ((q * n + r) as real / n as real).Floor == q
  {
    SumOfProduct(q, n, r);
    FloorOfQuotient((q * n + r) as real, q, n as real, r as real);
  }

  lemma SumOfProduct(q: nat, n: nat, r: nat)
    ensures (q * n + r) as real == q as real * n as real + r as real
  {
    ProductAsReal(q, n);
    SumAsReal(q * n, r);
  }

  lemma FloorOfQuotient(a: real, q: nat, m: real, r: real)
    requires 0.0 <= r < m && a == q as real * m + r
    ensures (a / m).Floor == q
  {
    QuotientOfSum(q as real, m, r);
    FractionBounds(r, m);
    FloorBetween(q, r / m);
  }

  lemma SumAsReal(a: nat, b: nat)
    ensures (a + b) as real == a as real + b as real
  {
  }

  lemma FloorBetween(q: nat, f: real)
    requires 0.0 <= f < 1.0
    ensures (q as real + f).Floor == q
  {
  }

  lemma QuotientOfSum(q: real, m: real, r: real)
    requires m > 0.0
    ensures (q * m + r) / m == q + r / m
  {
    var f := r / m;
    assert f * m == r;
    assert (q + f) * m == q * m + r;
  }

  lemma FractionBounds(r: real, m: real)
    requires 0.0 <= r < m
    ensures 0.0 <= r / m < 1.0
  {
    var f := r / m;
    assert f * m == r;
  }

  // ---- what scaling promises ----

  function RequestsPerMinute(r: Rate): nat { if r.PerSecond? then 60 * r.number else r.number }

  /** One step of the rate's own unit, in requests per minute. */
  function StepSize(r: Rate): nat { if r.PerSecond? then 60 else 1 }

  lemma DivisionBounds(a: nat, n: nat)
    requires n > 0
    ensures n * (a / n) <= a < n * (a / n) + n
  {
  }

  /** All replicas together never admit more than the rate, across the change of unit too,
      and fall short of it by less than one step of the result for each replica. */
  lemma NeverOverAdmits(r: Rate, n: nat)
    requires n > 0
    ensures var share := Share(r, n);
            && n * RequestsPerMinute(share) <= RequestsPerMinute(r)
            && RequestsPerMinute(r) - n * RequestsPerMinute(share) < n * StepSize(share)
  {
    var a := r.number;
    DivisionBounds(a, n);
    DivisionBounds(60 * a, n);
    if r.PerSecond? && a >= n {
      var q := a / n;
      assert n * (60 * q) == 60 * (n * q) && n * 60 == 60 * n;
    }
  }

  lemma TimesMonotone(n: nat, x: int, y: int)
    requires x <= y
    ensures n * x <= n * y
  {
  }

  lemma QuotientAtLeast(a: nat, n: nat, b: nat)
    requires n > 0
    ensures a / n >= b <==> a >= n * b
  {
    var q := a / n;
    DivisionBounds(a, n);
    if q >= b {
      TimesMonotone(n, b, q);
    } else {
      TimesMonotone(n, q + 1, b);
      assert n * (q + 1) == n * q + n;
    }
  }

  /** The share is not zero exactly when there is at least one request per minute for each
      replica. */
  lemma ShareNonZero(r: Rate, n: nat)
    requires n > 0
    ensures Share(r, n).number > 0 <==> n <= RequestsPerMinute(r)
  {
    QuotientAtLeast(r.number, n, 1);
    QuotientAtLeast(60 * r.number, n, 1);
  }

  lemma SharesShrink(r: Rate, n: nat)
    requires n > 0 && r.number <= MAX_INT
    ensures Share(r, n).number <= MAX_INT
  {
    QuotientAtLeast(60 * r.number, n, 60);
    QuotientAtLeast(r.number, n, MAX_INT + 1);
    TimesMonotone(MAX_INT + 1, 1, n);
  }

  // ---- texts ----

  /** What is shown reads back. */
  lemma ReadShow(r: Rate)
    requires r.number <= MAX_INT
    ensures ReadRate(Show(r)) == Some(r)
  {
    NumDec(r.number);
    var s, d := Show(r), Dec(r.number);
    assert s[..|s| - 3] == d && s[|s| - 3..] == Suffix(r);
    hide Dec, Num;
    assert "r/s"[2] != "r/m"[2];
  }

  lemma ShownIsTrim(r: Rate)
    ensures TrimRight(TrimLeft(Show(r))) == Show(r)
  {
    var s := Show(r);
    assert s[0] == Dec(r.number)[0] && s[|s| - 1] == Suffix(r)[2];
    hide Dec;
  }

  /** An accepted rate, scaled for `n` replicas, is accepted again exactly when it is not
      zero: for `a` requests per minute when n <= a, and for `a` per second when n <= 60a. */
  lemma ScaledAcceptedExactly(s: string, n: nat)
    requires n > 0 && ParseRequestRate(s).Some?
    ensures var t := ParseRequestRate(s).value;
            var r := ReadRate(t).value;
            && ReadRate(t).Some? && r.number > 0
            && Scaled(t, n) == Show(Share(r, n))
            && (ParseRequestRate(Scaled(t, n)).Some? <==> n <= RequestsPerMinute(r))
            && (ParseRequestRate(Scaled(t, n)).Some? ==> ParseRequestRate(Scaled(t, n)) == Some(Scaled(t, n)))
  {
    var t := ParseRequestRate(s).value;
    var r := ReadRate(t).value;
    var share := Share(r, n);
    ShareNonZero(r, n);
    SharesShrink(r, n);
    ReadShow(share);
    ShownIsTrim(share);
    hide Show, Share, TrimLeft, TrimRight, Dec, Num;
  }

  // ---- rates of policies ----

  /** The rate a text means when its unit may be in capitals and its number of any length. */
  function Meaning(s: string): Option<Rate> {
    if |s| < 4 || !AllDigits(s[..|s| - 3]) || s[|s| - 3..|s| - 1] != "r/" then None
    else if s[|s| - 1] in {'s', 'S'} then Some(PerSecond(Num(s[..|s| - 3])))
    else if s[|s| - 1] in {'m', 'M'} then Some(PerMinute(Num(s[..|s| - 3])))
    else None
  }

  /** What validation accepts as the rate of a policy: such a text that starts with a digit
      other than zero. */
  predicate PolicyRate(s: string) { Meaning(s).Some? && s[0] != '0' }

  /** What `scaleRatelimit` recognises of them. */
  predicate Recognised(s: string)
    requires Meaning(s).Some?
  {
    s[|s| - 1] in {'s', 'm'} && Meaning(s).value.number <= MAX_INT
  }

  lemma {:induction false} LeadingDigit(d: string)
    requires AllDigits(d) && |d| > 0 && d[0] != '0'
    ensures Num(d) > 0
  {
    if |d| > 1 {
      LeadingDigit(d[..|d| - 1]);
    }
  }

  lemma ReadMeaning(s: string)
    requires Meaning(s).Some?
    ensures ReadRate(s) == if Recognised(s) then Meaning(s) else None
  {
    var u := s[|s| - 3..];
    assert u == s[|s| - 3..|s| - 1] + [s[|s| - 1]];
    assert "r/s" == "r/" + ['s'] && "r/m" == "r/" + ['m'];
    assert u[2] == s[|s| - 1] && "r/s"[2] == 's' && "r/m"[2] == 'm';
  }

  lemma ShownMeaning(r: Rate)
    ensures Meaning(Show(r)) == Some(r)
  {
    NumDec(r.number);
    var s, d := Show(r), Dec(r.number);
    assert s[..|s| - 3] == d && s[|s| - 3..] == Suffix(r);
    hide Dec, Num;
    assert s[|s| - 3..|s| - 1] == Suffix(r)[..2] == "r/";
    assert s[|s| - 1] == Suffix(r)[2];
  }

  /** Over every rate of a policy: the replicas together admit no more than the rate exactly when
      there is one replica, or the unit is in small letters and the number fits the machine. In
      all other cases every replica keeps the whole rate. The result is a rate again unless there
      are more replicas than requests per minute: then it is zero, which NGINX refuses. */
  lemma PolicyRateScaled(s: string, n: nat)
    requires PolicyRate(s) && n > 0
    ensures Scaled(s, n) == if Recognised(s) then Show(Share(Meaning(s).value, n)) else s
    ensures Meaning(Scaled(s, n)).Some?
    ensures n * RequestsPerMinute(Meaning(Scaled(s, n)).value) <= RequestsPerMinute(Meaning(s).value) <==> n == 1 || Recognised(s)
    ensures PolicyRate(Scaled(s, n)) <==> !Recognised(s) || n <= RequestsPerMinute(Meaning(s).value)
  {
    var r := Meaning(s).value;
    ShareNonZero(r, n);
    ShownStart(Share(r, n));
    LeadingDigit(s[..|s| - 3]);
    ReadMeaning(s);
    ShownMeaning(Share(r, n));
    NeverOverAdmits(r, n);
    assert r.number > 0;
    hide Show, Share, ReadRate, Meaning;
    var m := RequestsPerMinute(r);
    assert n > 1 ==> n * m > m by {
      if n > 1 {
        MoreThanOnce(n, m);
      }
    }
  }

  lemma ShownStart(r: Rate)
    ensures |Show(r)| > 0 && (Show(r)[0] == '0' <==> r.number == 0)
  {
    assert Show(r)[0] == Dec(r.number)[0];
  }

  lemma MoreThanOnce(n: nat, m: nat)
    requires n > 1 && m > 0
    ensures n * m > m
  {
    TimesMonotone(m, 2, n);
  }

  /** For example, a unit in capitals, */
  lemma CapitalsNotScaled(d: string, replicas: int)
    ensures Scaled(d + "r/S", replicas) == d + "r/S" && Scaled(d + "r/M", replicas) == d + "r/M"
  {
    var s, m := d + "r/S", d + "r/M";
    assert s[|s| - 3..] == "r/S" && m[|m| - 3..] == "r/M";
    assert "r/S"[2] == 'S' && "r/M"[2] == 'M' && "r/s"[2] == 's' && "r/m"[2] == 'm';
  }

  /** or a number that is too wide. */
  lemma WideNotScaled(d: string, u: char, replicas: int)
    requires |d| > 0 && AllDigits(d) && d[0] != '0' && u in {'s', 'm'} && Num(d) > MAX_INT
    ensures var s := d + ("r/" + [u]); PolicyRate(s) && !Recognised(s) && Scaled(s, replicas) == s
  {
    var s := d + ("r/" + [u]);
    MeaningOf(d, u);
    ReadMeaning(s);
    hide Meaning, ReadRate;
  }

  lemma MeaningOf(d: string, u: char)
    requires |d| > 0 && AllDigits(d) && u in {'s', 'S', 'm', 'M'}
    ensures var s := d + ("r/" + [u]);
            && Meaning(s) == Some(if u in {'s', 'S'} then PerSecond(Num(d)) else PerMinute(Num(d)))
            && |s| > 0 && s[|s| - 1] == u
  {
    var s := d + ("r/" + [u]);
    assert s[..|s| - 3] == d && s[|s| - 3..] == "r/" + [u];
    assert s[|s| - 3..|s| - 1] == "r/";
  }
}
