/** Decimal numbers, `_`-joined names and the few character classes the generated
    NGINX names are made of. */
module Text {

  datatype Option<+T> = None | Some(value: T)

  predicate IsDigit(c: char) { '0' <= c <= '9' }

  predicate IsWord(c: char) {
    IsDigit(c) || 'a' <= c <= 'z' || 'A' <= c <= 'Z' || c == '_'
  }

  predicate AllDigits(s: string) { forall i :: 0 <= i < |s| ==> IsDigit(s[i]) }

  predicate AllWord(s: string) { forall i :: 0 <= i < |s| ==> IsWord(s[i]) }

  predicate Lacks(s: string, c: char) { forall i :: 0 <= i < |s| ==> s[i] != c }

  predicate StartsWith(s: string, prefix: string) { prefix <= s }

  // ---- decimal numerals ----

  /** `strconv.Itoa` on a non-negative number. */
  function Dec(n: nat): (s: string)
    ensures |s| > 0 && AllDigits(s)
    ensures n > 0 ==> s[0] != '0'
  {
    if n < 10 then ['0' + n as char] else Dec(n / 10) + ['0' + (n % 10) as char]
  }

  /** The value of a numeral, as `strconv.Atoi` reads it before any width check. */
  function Num(s: string): (n: nat)
    requires AllDigits(s)
  {
    if |s| == 0 then 0
    else Num(s[..|s| - 1]) * 10 + (s[|s| - 1] - '0') as nat
  }

  lemma {:induction false} NumDec(n: nat)
    ensures Num(Dec(n)) == n
  {
    if n >= 10 {
      NumDec(n / 10);
      var s := Dec(n);
      assert s[..|s| - 1] == Dec(n / 10);
    }
  }

  lemma DecInjective(a: nat, b: nat)
    requires Dec(a) == Dec(b)
    ensures a == b
  {
    NumDec(a);
    NumDec(b);
  }

  // ---- names joined by '_' ----

  function Join(tokens: seq<string>): (s: string)
  {
    if |tokens| == 0 then ""
    else if |tokens| == 1 then tokens[0]
    else tokens[0] + "_" + Join(tokens[1..])
  }

  predicate NoUnderscore(tokens: seq<string>) {
    forall i :: 0 <= i < |tokens| ==> Lacks(tokens[i], '_')
  }

  /** Two `_`-joined names whose tokens hold no underscore are equal only when the
      tokens are. */
  lemma {:induction false} JoinInjective(a: seq<string>, b: seq<string>)
    requires |a| > 0 && |b| > 0
    requires NoUnderscore(a) && NoUnderscore(b)
    requires Join(a) == Join(b)
    ensures a == b
  {
    FirstTokenEqual(a, b);
    if |a| == 1 && |b| == 1 {
    } else {
      assert |a| > 1 && |b| > 1;
      var n := |a[0]| + 1;
      assert Join(a)[n..] == Join(a[1..]);
      assert Join(b)[n..] == Join(b[1..]);
      JoinInjective(a[1..], b[1..]);
      assert a == [a[0]] + a[1..];
      assert b == [b[0]] + b[1..];
    }
  }

  lemma FirstTokenEqual(a: seq<string>, b: seq<string>)
    requires |a| > 0 && |b| > 0
    requires NoUnderscore(a) && NoUnderscore(b)
    requires Join(a) == Join(b)
    ensures a[0] == b[0] && (|a| > 1 <==> |b| > 1)
  {
    var s := Join(a);
    assert |a| > 1 ==> s[|a[0]|] == '_';
    assert |b| > 1 ==> s[|b[0]|] == '_';
    assert forall i :: 0 <= i < |a[0]| ==> s[i] == a[0][i] != '_';
    assert forall i :: 0 <= i < |b[0]| ==> s[i] == b[0][i] != '_';
    assert |a[0]| == |b[0]|;
    assert a[0] == s[..|a[0]|] == b[0];
  }

  // ---- lists without repetition ----

  predicate Unique<T(==)>(s: seq<T>) { forall i, j :: 0 <= i < j < |s| ==> s[i] != s[j] }

  lemma UniqueConcat<T>(a: seq<T>, b: seq<T>)
    requires Unique(a) && Unique(b)
    requires forall x :: x in a ==> x !in b
    ensures Unique(a + b)
  {
    var s := a + b;
    forall i, j | 0 <= i < j < |s| ensures s[i] != s[j] {
      if i < |a| && j >= |a| {
        assert s[i] in a && s[j] in b;
      }
    }
  }

  lemma UniqueEmpty<T>()
    ensures Unique<T>([])
  {
  }

  lemma UniqueParts<T>(a: seq<T>, b: seq<T>)
    requires Unique(a + b)
    ensures Unique(a) && Unique(b)
    ensures forall x :: x in a ==> x !in b
  {
    var s := a + b;
    assert forall i :: 0 <= i < |a| ==> s[i] == a[i];
    assert forall j :: 0 <= j < |b| ==> s[|a| + j] == b[j];
  }

  // ---- texts cut at a separator ----

  /** The first occurrence of the separator tells the two parts apart. */
  lemma CutInjective(a: string, x: string, b: string, y: string, sep: char)
    requires Lacks(a, sep) && Lacks(b, sep) && a + [sep] + x == b + [sep] + y
    ensures a == b && x == y
  {
    var s := a + [sep] + x;
    assert s[|a|] == sep && s[|b|] == sep;
    assert forall i :: 0 <= i < |a| ==> s[i] == a[i];
    assert forall i :: 0 <= i < |b| ==> s[i] == b[i];
    assert a == s[..|a|] && b == s[..|b|];
    assert x == s[|a| + 1..] && y == s[|b| + 1..];
  }

  // ---- white space ----

  /** White space as Unicode has it. */
  predicate IsSpace(c: char) {
    || c in {' ', '\t', '\n', '\r', '\U{0B}', '\U{0C}', '\U{85}', '\U{A0}', '\U{1680}', '\U{2028}',
             '\U{2029}', '\U{202F}', '\U{205F}', '\U{3000}'}
    || '\U{2000}' <= c <= '\U{200A}'
  }

  function TrimLeft(s: string): string {
    if |s| > 0 && IsSpace(s[0]) then TrimLeft(s[1..]) else s
  }

  // ---- sets of the elements of a list ----

  function Elements(s: seq<string>): set<string> { set x | x in s }

  lemma ElementsNone()
    ensures Elements([]) == {}
  {
  }

  lemma ElementsAppend(s: seq<string>, x: string)
    ensures Elements(s + [x]) == Elements(s) + {x}
  {
  }
}
