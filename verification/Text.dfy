/** Decimal numerals, searching, splitting and joining of strings, as the library functions used by the server do
    them. */
module Text {

  predicate IsDigit(c: char) {
    '0' <= c <= '9'
  }

  predicate AllDigits(s: string) {
    forall i :: 0 <= i < |s| ==> IsDigit(s[i])
  }

  function DigitValue(c: char): (d: nat)
    requires IsDigit(c)
    ensures d < 10
  {
    c as int - '0' as int
  }

  function Digit(d: nat): (c: char)
    requires d < 10
    ensures IsDigit(c) && DigitValue(c) == d
  {
    (d + '0' as int) as char
  }

  lemma DigitIs(d: nat)
    requires d < 10
    ensures Digit(d) == "0123456789"[d]
  {
  }

  /** strconv.Itoa of a number that is not negative. */
  function Itoa(n: nat): (s: string)
    ensures |s| > 0 && AllDigits(s)
  {
    if n < 10 then [Digit(n)] else Itoa(n / 10) + [Digit(n % 10)]
  }

  function Value(s: string): nat
    requires AllDigits(s)
  {
    if s == [] then 0 else Value(s[..|s| - 1]) * 10 + DigitValue(s[|s| - 1])
  }

  lemma {:induction false} ValueOfItoa(n: nat)
    ensures Value(Itoa(n)) == n
    ensures n > 0 ==> Itoa(n)[0] != '0'
  {
    if n < 10 {
      assert Itoa(n)[..0] == [];
    } else {
      ValueOfItoa(n / 10);
      assert Itoa(n)[..|Itoa(n)| - 1] == Itoa(n / 10);
    }
  }

  lemma ItoaInjective(m: nat, n: nat)
    ensures Itoa(m) == Itoa(n) <==> m == n
  {
    ValueOfItoa(m);
    ValueOfItoa(n);
  }

  ghost predicate Zeros(s: string) {
    forall i :: 0 <= i < |s| ==> s[i] == '0'
  }

  lemma {:induction false} ValueOfZeros(z: string, s: string)
    requires Zeros(z) && AllDigits(s)
    ensures AllDigits(z + s) && Value(z + s) == Value(s)
    decreases |z| + |s|
  {
    if s != [] {
      ValueOfZeros(z, s[..|s| - 1]);
      assert (z + s)[..|z + s| - 1] == z + s[..|s| - 1];
    } else if z != [] {
      ValueOfZeros(z[..|z| - 1], []);
      assert z + s == z && z[..|z| - 1] + [] == z[..|z| - 1];
      assert (z + s)[..|z + s| - 1] == z[..|z| - 1];
    }
  }

  /** The numeral without the single 0. */
  function Significant(n: nat): string {
    if n > 0 then Itoa(n) else ""
  }

  lemma SignificantMore(n: nat, d: nat)
    requires d < 10
    ensures Significant(n * 10 + d) == if n * 10 + d > 0 then Significant(n) + [Digit(d)] else ""
  {
  }

  /** `s` is zeros followed by `number`. */
  ghost predicate ZerosThen(s: string, number: string) {
    |number| <= |s| && s[|s| - |number|..] == number && Zeros(s[..|s| - |number|])
  }

  lemma ZerosThenMore(s: string, number: string, c: char)
    requires ZerosThen(s, number)
    ensures ZerosThen(s + [c], number + [c])
  {
    var k := |s| - |number|;
    assert (s + [c])[k..] == s[k..] + [c];
    assert (s + [c])[..k] == s[..k];
  }

  lemma ZerosOnly(s: string, c: char)
    requires ZerosThen(s, "") && c == '0'
    ensures ZerosThen(s + [c], "")
  {
    assert s[..|s|] == s && (s + [c])[..|s + [c]|] == s + [c];
  }

  lemma ZerosThenDigit(s: string, n: nat, d: nat)
    requires ZerosThen(s, Significant(n)) && d < 10
    ensures ZerosThen(s + [Digit(d)], Significant(n * 10 + d))
  {
    SignificantMore(n, d);
    if n * 10 + d > 0 {
      ZerosThenMore(s, Significant(n), Digit(d));
    } else {
      ZerosOnly(s, Digit(d));
    }
  }

  lemma LastDigit(s: string) returns (t: string, d: nat)
    requires AllDigits(s) && s != []
    ensures AllDigits(t) && |t| < |s| && d < 10 && s == t + [Digit(d)] && Value(s) == Value(t) * 10 + d
  {
    t, d := s[..|s| - 1], DigitValue(s[|s| - 1]);
  }

  /** Digits are leading zeros followed by the numeral that is printed for their value, unless the value is 0. */
  lemma {:induction false} StripZeros(s: string, v: nat)
    requires AllDigits(s) && v == Value(s)
    ensures ZerosThen(s, Significant(v))
  {
    if s != [] {
      var t, d := LastDigit(s);
      StripZeros(t, Value(t));
      ZerosThenDigit(t, Value(t), d);
    }
  }

  // ----- search, split, join -----

  predicate OccursAt(s: string, sep: string, i: int) {
    0 <= i && i + |sep| <= |s| && s[i..i + |sep|] == sep
  }

  /** The first occurrence from `i` on, or -1. */
  function Find(s: string, sep: string, i: nat): (r: int)
    ensures r >= 0 ==> i <= r && OccursAt(s, sep, r)
    ensures forall j :: i <= j && (r < 0 || j < r) ==> !OccursAt(s, sep, j)
    decreases |s| - i
  {
    if i + |sep| > |s| then -1
    else if s[i..i + |sep|] == sep then i
    else Find(s, sep, i + 1)
  }

  function Split(s: string, sep: string): (parts: seq<string>)
    requires |sep| > 0
    ensures |parts| > 0
  {
    var k := Find(s, sep, 0);
    if k < 0 then [s] else [s[..k]] + Split(s[k + |sep|..], sep)
  }

  function Join(parts: seq<string>, sep: string): string {
    if parts == [] then ""
    else if |parts| == 1 then parts[0]
    else parts[0] + sep + Join(parts[1..], sep)
  }

  lemma {:induction false} JoinOfSplit(s: string, sep: string)
    requires |sep| > 0
    ensures Join(Split(s, sep), sep) == s
    decreases |s|
  {
    var k := Find(s, sep, 0);
    if k >= 0 {
      var rest := s[k + |sep|..];
      JoinOfSplit(rest, sep);
      assert Split(s, sep)[1..] == Split(rest, sep);
      assert s == s[..k] + sep + rest;
    }
  }

  lemma {:induction false} LastPartIsFree(s: string, sep: string, j: int)
    requires |sep| > 0
    ensures var parts := Split(s, sep); !OccursAt(parts[|parts| - 1], sep, j)
    decreases |s|
  {
    var k := Find(s, sep, 0);
    if k >= 0 {
      LastPartIsFree(s[k + |sep|..], sep, j);
    }
  }

  lemma {:induction false} JoinSnoc(parts: seq<string>, last: string, sep: string)
    requires |parts| > 0
    ensures Join(parts + [last], sep) == Join(parts, sep) + sep + last
    decreases |parts|
  {
    if |parts| > 1 {
      JoinSnoc(parts[1..], last, sep);
      assert (parts + [last])[1..] == parts[1..] + [last];
    }
  }

  lemma JoinLast(parts: seq<string>, sep: string)
    requires |parts| > 1
    ensures Join(parts, sep) == Join(parts[..|parts| - 1], sep) + sep + parts[|parts| - 1]
  {
    JoinSnoc(parts[..|parts| - 1], parts[|parts| - 1], sep);
    assert parts == parts[..|parts| - 1] + [parts[|parts| - 1]];
  }

  /** No part contains the separating character. */
  ghost predicate Plain(parts: seq<string>, c: char) {
    forall i :: 0 <= i < |parts| ==> c !in parts[i]
  }

  lemma FindFirst(a: string, c: char, b: string)
    requires c !in a
    ensures Find(a + [c] + b, [c], 0) == |a|
  {
    var s := a + [c] + b;
    assert OccursAt(s, [c], |a|);
    forall j | 0 <= j < |a| ensures !OccursAt(s, [c], j) {
      assert s[j..j + 1] == [a[j]] && a[j] in a;
    }
  }

  lemma FindNone(a: string, c: char)
    requires c !in a
    ensures Find(a, [c], 0) < 0
  {
    forall j | 0 <= j < |a| ensures !OccursAt(a, [c], j) {
      assert a[j..j + 1] == [a[j]] && a[j] in a;
    }
  }

  lemma {:induction false} SplitOfJoin(parts: seq<string>, c: char)
    requires |parts| > 0 && Plain(parts, c)
    ensures Split(Join(parts, [c]), [c]) == parts
    decreases |parts|
  {
    if |parts| == 1 {
      FindNone(parts[0], c);
    } else {
      var rest := Join(parts[1..], [c]);
      FindFirst(parts[0], c, rest);
      SplitOfJoin(parts[1..], c);
      var s := parts[0] + [c] + rest;
      assert s[..|parts[0]|] == parts[0] && s[|parts[0]| + 1..] == rest;
    }
  }
}
