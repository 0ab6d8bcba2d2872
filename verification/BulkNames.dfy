/** Naming of users that are added in bulk: the last numeral of the given name is found, the name is split at its
    value and put together again around the counter. */
module BulkNames {
  import opened Text

  const MAX_INT := 0x7FFF_FFFF_FFFF_FFFF

  /** Addition of two machine integers; it wraps around. */
  function Plus(a: int, b: int): int {
    (a + b + MAX_INT + 1) % (2 * (MAX_INT + 1)) - (MAX_INT + 1)
  }

  lemma PlusWraps(a: int, b: int)
    requires 0 <= a <= MAX_INT && 0 <= b <= MAX_INT
    ensures Plus(a, b) == if a + b <= MAX_INT then a + b else a + b - 2 * (MAX_INT + 1)
  {
  }

  /** One past the last digit, or 0. */
  function End(s: string): (e: nat)
    ensures e <= |s| && (e > 0 ==> IsDigit(s[e - 1]))
    ensures forall i :: e <= i < |s| ==> !IsDigit(s[i])
  {
    if s == [] then 0 else if IsDigit(s[|s| - 1]) then |s| else End(s[..|s| - 1])
  }

  /** Where the run of digits that ends before `e` begins. */
  function Start(s: string, e: nat): (b: nat)
    requires e <= |s|
    ensures b <= e && (b > 0 ==> !IsDigit(s[b - 1]))
    ensures forall i :: b <= i < e ==> IsDigit(s[i])
  {
    if e == 0 || !IsDigit(s[e - 1]) then e else Start(s, e - 1)
  }

  /** The last match of [0-9]+, or the empty string. */
  function LastDigits(s: string): (d: string)
    ensures AllDigits(d)
  {
    s[Start(s, End(s))..End(s)]
  }

  /** strconv.Atoi with its error ignored: out of range gives the largest integer. */
  function Atoi(d: string): (i: nat)
    requires AllDigits(d)
    ensures i <= MAX_INT
  {
    if Value(d) > MAX_INT then MAX_INT else Value(d)
  }

  function Numeral(name: string): nat {
    Value(LastDigits(name))
  }

  /** Everything before the digits that the numeral prints as; empty when there is no numeral or it is 0. */
  function Before(name: string): string {
    if Numeral(name) == 0 then ""
    else if |Itoa(Numeral(name))| <= End(name) then name[..End(name) - |Itoa(Numeral(name))|] else ""
  }

  function After(name: string): string {
    if Numeral(name) == 0 then "" else name[End(name)..]
  }

  function NthName(name: string, k: nat): string {
    Before(name) + Itoa(Numeral(name) + k) + After(name)
  }

  // ----- where the numeral stands -----

  /** The digits `sep`, not beginning with 0, end at `e` the last run of digits, behind leading zeros from `b` on. */
  ghost predicate Stands(name: string, b: nat, e: nat, sep: string) {
    && b + |sep| <= e <= |name| && |sep| > 0
    && (forall i :: b <= i < e - |sep| ==> name[i] == '0')
    && (forall i :: e <= i < |name| ==> !IsDigit(name[i]))
    && (b > 0 ==> !IsDigit(name[b - 1]))
    && AllDigits(sep) && sep[0] != '0'
    && OccursAt(name, sep, e - |sep|)
  }

  lemma DigitsStand(name: string, b: nat, e: nat, d: string, sep: string)
    requires b <= e <= |name| && d == name[b..e] && ZerosThen(d, sep)
    requires |sep| > 0 && AllDigits(sep) && sep[0] != '0'
    requires forall i :: e <= i < |name| ==> !IsDigit(name[i])
    requires b > 0 ==> !IsDigit(name[b - 1])
    ensures Stands(name, b, e, sep)
  {
    assert d[|d| - |sep|..] == name[e - |sep|..e];
    forall i | b <= i < e - |sep| ensures name[i] == '0' {
      assert name[i] == d[..|d| - |sep|][i - b];
    }
  }

  /** A numeral that is not 0 ends the last run of digits, behind leading zeros only. */
  lemma NumeralStands(name: string)
    requires Numeral(name) > 0
    ensures Stands(name, Start(name, End(name)), End(name), Itoa(Numeral(name)))
  {
    var d, i := LastDigits(name), Numeral(name);
    StripZeros(d, i);
    ValueOfItoa(i);
    DigitsStand(name, Start(name, End(name)), End(name), d, Itoa(i));
  }

  lemma ThreeParts(name: string, b: nat, e: nat, sep: string, front: string, back: string)
    requires Stands(name, b, e, sep)
    requires front == name[..e - |sep|] && back == name[e..]
    ensures name == front + sep + back
  {
    assert name == name[..e - |sep|] + name[e - |sep|..e] + name[e..];
  }

  lemma CutsAt(name: string, sep: string)
    requires Numeral(name) > 0 && sep == Itoa(Numeral(name)) && |sep| <= End(name)
    ensures Before(name) == name[..End(name) - |sep|] && After(name) == name[End(name)..]
  {
  }

  lemma AroundNumeral(name: string, sep: string)
    requires Numeral(name) > 0 && sep == Itoa(Numeral(name))
    ensures name == Before(name) + sep + After(name)
  {
    var b, e := Start(name, End(name)), End(name);
    assert Stands(name, b, e, sep) by {
      NumeralStands(name);
    }
    CutsAt(name, sep);
    ThreeParts(name, b, e, sep, Before(name), After(name));
  }

  /** An occurrence of the numeral's digits after which there is no other one is the numeral itself. */
  lemma LastOccurrence(name: string, b: nat, e: nat, sep: string, p: nat)
    requires Stands(name, b, e, sep) && OccursAt(name, sep, p)
    requires forall j :: j >= p + |sep| ==> !OccursAt(name, sep, j)
    ensures p == e - |sep|
  {
    forall i | p <= i < p + |sep| ensures name[i] == sep[i - p] {
      assert name[i] == name[p..p + |sep|][i - p];
    }
    assert IsDigit(name[p + |sep| - 1]);
    assert p <= e - |sep| < p + |sep|;
    assert b > 0 ==> !(p <= b - 1 < p + |sep|);
    assert name[p] == sep[0];
  }

  ghost predicate Free(s: string, sep: string) {
    forall j :: !OccursAt(s, sep, j)
  }

  lemma FreePart(name: string, front: string, sep: string, last: string, j: int)
    requires name == front + sep + last && j >= |front| + |sep|
    requires !OccursAt(last, sep, j - |front| - |sep|)
    ensures !OccursAt(name, sep, j)
  {
    var i := j - |front| - |sep|;
    assert j + |sep| <= |name| ==> last[i..i + |sep|] == name[j..j + |sep|];
  }

  /** A name whose last part holds no separator is cut at its last numeral. */
  lemma CutAtNumeral(name: string, b: nat, e: nat, sep: string, front: string, last: string)
    requires Stands(name, b, e, sep) && name == front + sep + last
    requires Free(last, sep)
    ensures front == name[..e - |sep|] && last == name[e..]
  {
    assert name[|front|..|front| + |sep|] == sep;
    forall j | j >= |front| + |sep| ensures !OccursAt(name, sep, j) {
      FreePart(name, front, sep, last, j);
    }
    LastOccurrence(name, b, e, sep, |front|);
  }

  lemma SplitInTwo(name: string, sep: string, at: int)
    requires |sep| > 0 && OccursAt(name, sep, at)
    ensures |Split(name, sep)| > 1 && Free(Split(name, sep)[|Split(name, sep)| - 1], sep)
  {
    var parts := Split(name, sep);
    var last := parts[|parts| - 1];
    forall j ensures !OccursAt(last, sep, j) {
      LastPartIsFree(name, sep, j);
    }
    assert Find(name, sep, 0) >= 0;
  }

  lemma PartsAround(name: string, b: nat, e: nat, sep: string, parts: seq<string>)
    requires Stands(name, b, e, sep) && parts == Split(name, sep)
    ensures |parts| > 1
    ensures Join(parts[..|parts| - 1], sep) == name[..e - |sep|] && parts[|parts| - 1] == name[e..]
  {
    SplitInTwo(name, sep, e - |sep|);
    JoinOfSplit(name, sep);
    JoinLast(parts, sep);
    CutAtNumeral(name, b, e, sep, Join(parts[..|parts| - 1], sep), parts[|parts| - 1]);
  }

  /** Cut at its last separator, the split name falls apart around the last numeral. */
  lemma PartsAreAround(name: string, sep: string)
    requires Numeral(name) > 0 && sep == Itoa(Numeral(name))
    ensures var parts := Split(name, sep);
            |parts| > 1 && Join(parts[..|parts| - 1], sep) == Before(name) && parts[|parts| - 1] == After(name)
  {
    NumeralStands(name);
    PartsAround(name, Start(name, End(name)), End(name), sep, Split(name, sep));
    CutsAt(name, sep);
  }

  /** The loop over the parts rebuilds what stands before and behind the last numeral. */
  method Parts(name: string, i: nat) returns (userNamePrefix: string, userNameSuffix: string)
    requires i > 0
    ensures i == Numeral(name) ==> userNamePrefix == Before(name) && userNameSuffix == After(name)
  {
    var sep := Itoa(i);
    var nameParts := Split(name, sep);
    userNamePrefix, userNameSuffix := "", "";
    var key := 0;
    while key < |nameParts|
      invariant 0 <= key < |nameParts|
      invariant userNameSuffix == ""
      invariant userNamePrefix ==
                Join(nameParts[..key], sep) + if 0 < key < |nameParts| - 1 then sep else ""
    {
      var part := nameParts[key];
      if key == |nameParts| - 1 {
        userNameSuffix := part;
        break;
      }
      if key > 0 {
        JoinSnoc(nameParts[..key], part, sep);
      }
      assert nameParts[..key + 1] == nameParts[..key] + [part];
      if key != |nameParts| - 2 {
        part := part + sep;
      }
      userNamePrefix := userNamePrefix + part;
      key := key + 1;
    }
    if i == Numeral(name) {
      assert userNamePrefix == Join(nameParts[..|nameParts| - 1], sep) && userNameSuffix == nameParts[|nameParts| - 1];
      PartsAreAround(name, sep);
    }
  }

  method Count(userNamePrefix: string, userNameSuffix: string, first: nat, bulk: nat) returns (names: seq<string>)
    requires first <= MAX_INT && bulk <= MAX_INT
    ensures |names| == if first + bulk <= MAX_INT then bulk else 0
    ensures forall k :: 0 <= k < |names| ==> names[k] == userNamePrefix + Itoa(first + k) + userNameSuffix
  {
    names := [];
    PlusWraps(bulk, first);
    var i, top := first, Plus(bulk, first);
    while i < top
      invariant first <= i && (first <= top ==> i <= top) && (top < first ==> i == first)
      invariant |names| == i - first
      invariant forall k :: 0 <= k < |names| ==> names[k] == userNamePrefix + Itoa(first + k) + userNameSuffix
      decreases top - i
    {
      names := names + [userNamePrefix + Itoa(i) + userNameSuffix];
      i := i + 1;
    }
  }

  /** The names that one request tries to create; an error of the database skips a name. */
  method AddNewUser(name: string, bulk: int) returns (refused: bool, names: seq<string>)
    requires bulk <= MAX_INT
    ensures refused <==> name == "" || bulk > 100
    ensures refused ==> names == []
    ensures !refused && bulk <= 1 ==> names == [name]
    ensures !refused && bulk > 1 ==> |names| == if Numeral(name) + bulk <= MAX_INT then bulk else 0
    ensures !refused && bulk > 1 ==> forall k :: 0 <= k < |names| ==> names[k] == NthName(name, k)
  {
    names := [];
    if name == "" { return true, []; }
    if bulk > 100 { return true, []; }
    refused := false;
    if bulk > 1 {
      var starts := LastDigits(name);
      var i := 0;
      if starts != "" {
        i := Atoi(starts);
      }
      var userNamePrefix, userNameSuffix := "", "";
      if i != 0 {
        userNamePrefix, userNameSuffix := Parts(name, i);
      }
      names := Count(userNamePrefix, userNameSuffix, i, bulk);
    } else {
      names := [name];
    }
  }

  // ----- what the names are -----

  /** The first generated name is the given one, leading zeros included, exactly when its last numeral is not 0;
      the single exception is the name "0". */
  lemma FirstNameIsGivenIff(name: string)
    requires name != ""
    ensures NthName(name, 0) == name <==> Numeral(name) != 0 || name == "0"
  {
    if Numeral(name) > 0 {
      AroundNumeral(name, Itoa(Numeral(name)));
    } else {
      assert NthName(name, 0) == Itoa(0) == "0";
    }
  }

  lemma SameAround(front: string, a: string, b: string, back: string)
    ensures front + a + back == front + b + back <==> a == b
  {
    var x, y := front + a + back, front + b + back;
    if x == y {
      assert |a| == |b|;
      assert a == x[|front|..|front| + |a|] && b == y[|front|..|front| + |b|];
    }
  }

  lemma NamesAreDistinct(name: string, j: nat, k: nat)
    ensures NthName(name, j) == NthName(name, k) <==> j == k
  {
    ItoaInjective(Numeral(name) + j, Numeral(name) + k);
    SameAround(Before(name), Itoa(Numeral(name) + j), Itoa(Numeral(name) + k), After(name));
  }

  lemma {:induction false} EndIs(s: string, e: nat)
    requires e <= |s| && (e > 0 ==> IsDigit(s[e - 1])) && forall i :: e <= i < |s| ==> !IsDigit(s[i])
    ensures End(s) == e
  {
  }

  lemma {:induction false} StartIs(s: string, b: nat, e: nat)
    requires b <= e <= |s| && (b > 0 ==> !IsDigit(s[b - 1])) && forall i :: b <= i < e ==> IsDigit(s[i])
    ensures Start(s, e) == b
  {
  }

  /** In a string built around leading zeros and digits, these are the last run. */
  lemma RunIs(front: string, zeros: string, d: string, back: string)
    requires Zeros(zeros) && AllDigits(d) && d != "" && forall i :: 0 <= i < |back| ==> !IsDigit(back[i])
    requires front != "" ==> !IsDigit(front[|front| - 1])
    ensures LastDigits(front + zeros + d + back) == zeros + d
  {
    var s := front + zeros + d + back;
    var b, e := |front|, |front| + |zeros| + |d|;
    assert s[b..e] == zeros + d;
    forall i | b <= i < e ensures IsDigit(s[i]) {
      assert s[i] == (zeros + d)[i - b];
    }
    EndIs(s, e);
    StartIs(s, b, e);
  }

  lemma NumeralOf(front: string, zeros: string, n: nat, back: string)
    requires Zeros(zeros) && forall i :: 0 <= i < |back| ==> !IsDigit(back[i])
    requires front != "" ==> !IsDigit(front[|front| - 1])
    ensures Numeral(front + zeros + Itoa(n) + back) == n
  {
    RunIs(front, zeros, Itoa(n), back);
    ValueOfZeros(zeros, Itoa(n));
    ValueOfItoa(n);
  }

  lemma ZerosSplit(name: string, b: nat, e: nat, sep: string) returns (front: string, zeros: string)
    requires Stands(name, b, e, sep)
    ensures name[..e - |sep|] == front + zeros && Zeros(zeros) && (front != "" ==> !IsDigit(front[|front| - 1]))
  {
    front, zeros := name[..b], name[b..e - |sep|];
  }

  lemma BeforeNumeral(name: string) returns (front: string, zeros: string)
    ensures Before(name) == front + zeros && Zeros(zeros) && (front != "" ==> !IsDigit(front[|front| - 1]))
  {
    front, zeros := "", "";
    if Numeral(name) > 0 {
      NumeralStands(name);
      CutsAt(name, Itoa(Numeral(name)));
      front, zeros := ZerosSplit(name, Start(name, End(name)), End(name), Itoa(Numeral(name)));
    }
  }

  /** The last numeral of the k-th name is the given one plus k. */
  lemma NumeralAdvances(name: string, k: nat)
    ensures Numeral(NthName(name, k)) == Numeral(name) + k
  {
    var front, zeros := BeforeNumeral(name);
    NumeralOf(front, zeros, Numeral(name) + k, After(name));
  }

  /** Without a numeral, or with 0, the names are the numbers themselves. */
  lemma ZeroCounts(name: string, k: nat)
    ensures Numeral(name) == 0 ==> NthName(name, k) == Itoa(k)
  {
  }
}
