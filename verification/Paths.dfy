/** Slash-separated paths: lexical cleaning, trimming of white space, percent decoding. */
module Paths {
  import opened Options
  import opened Text

  predicate IsRooted(p: string) {
    p != "" && p[0] == '/'
  }

  /** A path element that stays where it is. */
  predicate Ordinary(seg: string) {
    seg != "" && seg != "." && seg != ".." && '/' !in seg
  }

  ghost predicate AllOrdinary(segs: seq<string>) {
    forall i :: 0 <= i < |segs| ==> Ordinary(segs[i])
  }

  function Push(out: seq<string>, seg: string, rooted: bool): seq<string> {
    if seg == "" || seg == "." then out
    else if seg != ".." then out + [seg]
    else if out != [] && out[|out| - 1] != ".." then out[..|out| - 1]
    else if rooted then out
    else out + [seg]
  }

  function Resolve(segs: seq<string>, out: seq<string>, rooted: bool): seq<string> {
    if segs == [] then out else Resolve(segs[1..], Push(out, segs[0], rooted), rooted)
  }

  function Elements(p: string): seq<string> {
    Resolve(Split(p, "/"), [], IsRooted(p))
  }

  /** path.Clean. */
  function Clean(p: string): string {
    if p == "" then "."
    else if IsRooted(p) then "/" + Join(Elements(p), "/")
    else if Elements(p) == [] then "."
    else Join(Elements(p), "/")
  }

  /** The check that all users of a relative path make after cleaning it. */
  predicate StaysInside(clean: string) {
    clean != "." && clean != ".." && !("../" <= clean) && !IsRooted(clean)
  }

  // ----- cleaning -----

  lemma {:induction false} ResolveOrdinary(segs: seq<string>, out: seq<string>, rooted: bool)
    requires AllOrdinary(segs)
    ensures Resolve(segs, out, rooted) == out + segs
    decreases |segs|
  {
    if segs == [] {
      assert out + segs == out;
    } else {
      ResolveOrdinary(segs[1..], out + [segs[0]], rooted);
      assert out + [segs[0]] + segs[1..] == out + segs;
    }
  }

  lemma OrdinaryIsPlain(segs: seq<string>)
    requires AllOrdinary(segs)
    ensures Plain(segs, '/')
  {
  }

  lemma JoinBegins(segs: seq<string>, sep: string)
    requires segs != [] && segs[0] != ""
    ensures Join(segs, sep) != "" && Join(segs, sep)[0] == segs[0][0]
  {
  }

  /** A path of ordinary elements is clean. */
  lemma OrdinaryIsClean(segs: seq<string>)
    requires segs != [] && AllOrdinary(segs)
    ensures Clean(Join(segs, "/")) == Join(segs, "/") && Elements(Join(segs, "/")) == segs
  {
    var p := Join(segs, "/");
    OrdinaryIsPlain(segs);
    assert Ordinary(segs[0]);
    assert segs[0][0] in segs[0];
    JoinBegins(segs, "/");
    SplitOfJoin(segs, '/');
    ResolveOrdinary(segs, [], false);
    assert [] + segs == segs;
  }

  /** Elements after cleaning: no empty ones, and `..` only in front. */
  ghost predicate Tidy(out: seq<string>) {
    && (forall i :: 0 <= i < |out| ==> out[i] == ".." || Ordinary(out[i]))
    && (forall i, j :: 0 <= i < j < |out| && out[j] == ".." ==> out[i] == "..")
  }

  lemma {:induction false} ResolveTidy(segs: seq<string>, out: seq<string>, rooted: bool)
    requires Plain(segs, '/') && Tidy(out)
    ensures Tidy(Resolve(segs, out, rooted))
    decreases |segs|
  {
    if segs != [] {
      assert '/' !in segs[0];
      assert segs[0] == ".." || segs[0] == "" || segs[0] == "." || Ordinary(segs[0]);
      ResolveTidy(segs[1..], Push(out, segs[0], rooted), rooted);
    }
  }

  lemma {:induction false} SplitIsPlain(s: string, c: char)
    ensures Plain(Split(s, [c]), c)
    decreases |s|
  {
    var k := Find(s, [c], 0);
    var parts := Split(s, [c]);
    var first := if k < 0 then s else s[..k];
    forall j | 0 <= j < |first| ensures first[j] != c {
      assert !OccursAt(s, [c], j);
      assert s[j..j + 1] == [s[j]];
    }
    if k >= 0 {
      SplitIsPlain(s[k + 1..], c);
    }
  }

  lemma BeginsWithDots(out: seq<string>)
    requires out != []
    ensures out[0] == ".." ==> Join(out, "/") == ".." || "../" <= Join(out, "/")
  {
  }

  /** A relative path that stays inside is a join of ordinary elements. */
  lemma InsideIsOrdinary(p: string)
    requires StaysInside(Clean(p))
    ensures Elements(p) != [] && AllOrdinary(Elements(p)) && Clean(p) == Join(Elements(p), "/")
  {
    var out := Elements(p);
    SplitIsPlain(p, '/');
    ResolveTidy(Split(p, "/"), [], IsRooted(p));
    assert !IsRooted(p);
    BeginsWithDots(out);
  }

  // ----- cleaning does not lengthen a relative path -----

  function Weight(segs: seq<string>): nat {
    if segs == [] then 0 else Weight(segs[..|segs| - 1]) + |segs[|segs| - 1]| + 1
  }

  lemma {:induction false} WeightFront(segs: seq<string>)
    requires segs != []
    ensures Weight(segs) == |segs[0]| + 1 + Weight(segs[1..])
    decreases |segs|
  {
    if |segs| > 1 {
      WeightFront(segs[..|segs| - 1]);
      assert segs[..|segs| - 1][1..] == segs[1..][..|segs| - 2];
    }
  }

  lemma {:induction false} WeightOfJoin(segs: seq<string>)
    requires segs != []
    ensures |Join(segs, "/")| + 1 == Weight(segs)
    decreases |segs|
  {
    WeightFront(segs);
    if |segs| > 1 {
      WeightOfJoin(segs[1..]);
    }
  }

  lemma {:induction false} ResolveWeight(segs: seq<string>, out: seq<string>, rooted: bool)
    ensures Weight(Resolve(segs, out, rooted)) <= Weight(out) + Weight(segs)
    decreases |segs|
  {
    if segs != [] {
      WeightFront(segs);
      var next := Push(out, segs[0], rooted);
      assert Weight(next) <= Weight(out) + |segs[0]| + 1 by {
        assert (out + [segs[0]])[..|out|] == out;
      }
      ResolveWeight(segs[1..], next, rooted);
    }
  }

  lemma CleanNotLonger(p: string)
    requires StaysInside(Clean(p))
    ensures |Clean(p)| <= |p|
  {
    InsideIsOrdinary(p);
    WeightOfJoin(Elements(p));
    ResolveWeight(Split(p, "/"), [], IsRooted(p));
    WeightOfJoin(Split(p, "/"));
    JoinOfSplit(p, "/");
  }

  // ----- white space -----

  predicate IsSpace(c: char) {
    var n := c as int;
    9 <= n <= 13 || n == 0x20 || n == 0x85 || n == 0xA0 || n == 0x1680 || 0x2000 <= n <= 0x200A ||
    n == 0x2028 || n == 0x2029 || n == 0x202F || n == 0x205F || n == 0x3000
  }

  function TrimEnd(s: string): (t: string)
    ensures t <= s && (t != "" ==> !IsSpace(t[|t| - 1]))
    ensures t == s <==> s == "" || !IsSpace(s[|s| - 1])
  {
    if s != "" && IsSpace(s[|s| - 1]) then TrimEnd(s[..|s| - 1]) else s
  }

  function TrimStart(s: string): (t: string)
    ensures |t| <= |s| && s[|s| - |t|..] == t
    ensures t == s <==> s == "" || !IsSpace(s[0])
  {
    if s != "" && IsSpace(s[0]) then TrimStart(s[1..]) else s
  }

  /** strings.TrimSpace. */
  function TrimSpace(s: string): (t: string)
    ensures |t| <= |s|
  {
    TrimStart(TrimEnd(s))
  }

  lemma TrimmedIff(s: string)
    requires s != "" && !IsSpace(s[0])
    ensures TrimSpace(s) == s <==> !IsSpace(s[|s| - 1])
    ensures TrimSpace(s) == TrimEnd(s) != ""
    ensures TrimSpace(s) != s ==> |TrimSpace(s)| < |s|
  {
    var t := TrimEnd(s);
    TrimEndKeepsFirst(s);
  }

  lemma {:induction false} TrimEndKeepsFirst(s: string)
    requires s != "" && !IsSpace(s[0])
    ensures TrimEnd(s) != "" && TrimEnd(s)[0] == s[0]
    decreases |s|
  {
    if IsSpace(s[|s| - 1]) {
      TrimEndKeepsFirst(s[..|s| - 1]);
    }
  }

  lemma {:induction false} TrimEndBehind(front: string, s: string)
    requires front != "" && !IsSpace(front[|front| - 1])
    ensures TrimEnd(front + s) == front + TrimEnd(s)
    decreases |s|
  {
    if s == "" {
      assert front + s == front;
    } else if IsSpace(s[|s| - 1]) {
      TrimEndBehind(front, s[..|s| - 1]);
      assert (front + s)[..|front + s| - 1] == front + s[..|s| - 1];
    }
  }

  // ----- percent decoding -----

  function Hex(c: char): Option<nat> {
    if '0' <= c <= '9' then Some(c as int - '0' as int)
    else if 'a' <= c <= 'f' then Some(c as int - 'a' as int + 10)
    else if 'A' <= c <= 'F' then Some(c as int - 'A' as int + 10)
    else None
  }

  /** url.PathUnescape; each escape gives one byte. */
  function Unescape(s: string): Option<string>
    decreases |s|
  {
    if s == "" then Some("")
    else if s[0] != '%' then
      var rest := Unescape(s[1..]);
      if rest.None? then None else Some([s[0]] + rest.value)
    else if |s| < 3 || Hex(s[1]).None? || Hex(s[2]).None? then None
    else
      var rest := Unescape(s[3..]);
      if rest.None? then None else Some([(Hex(s[1]).value * 16 + Hex(s[2]).value) as char] + rest.value)
  }

  /** Decoding leaves exactly the strings without a percent sign alone; others get shorter or are refused. */
  lemma {:induction false} UnescapedIff(s: string)
    ensures '%' !in s ==> Unescape(s) == Some(s)
    ensures '%' in s && Unescape(s).Some? ==> |Unescape(s).value| < |s|
    decreases |s|
  {
    if s == "" {
    } else if s[0] != '%' {
      UnescapedIff(s[1..]);
      assert s == [s[0]] + s[1..];
    } else if |s| >= 3 {
      UnescapedIff(s[3..]);
    }
  }

  // ----- what trimming, decoding and cleaning mean -----

  /** White space is the tab to the carriage return, the blanks of Latin 1, and the separators of Unicode. */
  lemma SpacesAre(c: char)
    ensures IsSpace(c) <==>
            || c in "\t\n\U{b}\U{c}\r \U{85}\U{a0}" || c in "\U{1680}\U{2028}\U{2029}\U{202f}\U{205f}\U{3000}"
            || c in "\U{2000}\U{2001}\U{2002}\U{2003}\U{2004}\U{2005}\U{2006}\U{2007}\U{2008}\U{2009}\U{200a}"
  {
  }

  ghost predicate Blank(s: string) {
    forall i :: 0 <= i < |s| ==> IsSpace(s[i])
  }

  lemma {:induction false} TrimEndOf(s: string, back: string)
    requires Blank(back) && (s != "" ==> !IsSpace(s[|s| - 1]))
    ensures TrimEnd(s + back) == s
    decreases |back|
  {
    if back == "" {
      assert s + back == s;
    } else {
      var fewer := back[..|back| - 1];
      TrimEndOf(s, fewer);
      assert (s + back)[..|s + back| - 1] == s + fewer;
    }
  }

  lemma TrimStartNext(s: string)
    requires s != "" && IsSpace(s[0])
    ensures TrimStart(s) == TrimStart(s[1..])
  {
  }

  lemma {:induction false} TrimStartOf(front: string, s: string, whole: string)
    requires whole == front + s && Blank(front) && (s != "" ==> !IsSpace(s[0]))
    ensures TrimStart(whole) == s
    decreases |front|
  {
    if front == "" {
      assert whole == s;
    } else {
      TrimStartNext(whole);
      assert whole[1..] == front[1..] + s;
      TrimStartOf(front[1..], s, whole[1..]);
    }
  }

  /** White space around a text is cut off, and nothing but that. */
  lemma TrimmedText(front: string, s: string, back: string)
    requires Blank(front) && Blank(back) && (s != "" ==> !IsSpace(s[0]) && !IsSpace(s[|s| - 1]))
    ensures TrimSpace(front + s + back) == s
  {
    if s == "" {
      assert Blank(front + back) && front + s + back == "" + (front + back);
      TrimEndOf("", front + back);
    } else {
      TrimEndOf(front + s, back);
      TrimStartOf(front, s, front + s);
    }
  }

  /** One unit of an encoded text: a character, or an escape of two hexadecimal digits. */
  datatype Unit = Literal(c: char) | Escape(high: nat, low: nat, text: string)

  /** Digits of either case stand for their value. */
  predicate IsHex(c: char, n: nat) {
    n < 16 && (c == "0123456789abcdef"[n] || c == "0123456789ABCDEF"[n])
  }

  predicate IsUnit(u: Unit) {
    match u
    case Literal(c) => c != '%'
    case Escape(high, low, text) => |text| == 3 && text[0] == '%' && IsHex(text[1], high) && IsHex(text[2], low)
  }

  function Encoded(us: seq<Unit>): string {
    if us == [] then ""
    else (match us[0] case Literal(c) => [c] case Escape(_, _, text) => text) + Encoded(us[1..])
  }

  function Decoded(us: seq<Unit>): string
    requires forall i :: 0 <= i < |us| ==> IsUnit(us[i])
  {
    if us == [] then ""
    else
      assert IsUnit(us[0]);
      [match us[0] case Literal(c) => c case Escape(high, low, _) => (16 * high + low) as char] + Decoded(us[1..])
  }

  lemma HexIs(c: char, n: nat)
    ensures IsHex(c, n) <==> Hex(c) == Some(n)
  {
  }

  /** Every text of units is decoded unit by unit. */
  lemma {:induction false} UnescapedUnits(us: seq<Unit>)
    requires forall i :: 0 <= i < |us| ==> IsUnit(us[i])
    ensures Unescape(Encoded(us)) == Some(Decoded(us))
    decreases |us|
  {
    if us != [] {
      UnescapedUnits(us[1..]);
      var s := Encoded(us);
      match us[0]
      case Literal(c) =>
        assert s[0] == c && s[1..] == Encoded(us[1..]);
      case Escape(high, low, text) =>
        HexIs(text[1], high);
        HexIs(text[2], low);
        assert s[0] == '%' && s[1] == text[1] && s[2] == text[2] && s[3..] == Encoded(us[1..]);
    }
  }

  /** And nothing else is decoded at all. */
  lemma {:induction false} UnescapedHasUnits(s: string) returns (us: seq<Unit>)
    requires Unescape(s).Some?
    ensures forall i :: 0 <= i < |us| ==> IsUnit(us[i])
    ensures s == Encoded(us)
    decreases |s|
  {
    if s == "" {
      us := [];
    } else if s[0] != '%' {
      var rest := UnescapedHasUnits(s[1..]);
      us := [Literal(s[0])] + rest;
    } else {
      var rest := UnescapedHasUnits(s[3..]);
      HexIs(s[1], Hex(s[1]).value);
      HexIs(s[2], Hex(s[2]).value);
      us := [Escape(Hex(s[1]).value, Hex(s[2]).value, s[..3])] + rest;
      assert s == s[..3] + s[3..];
    }
  }

  lemma {:induction false} ResolveParts(a: seq<string>, b: seq<string>, out: seq<string>, rooted: bool)
    ensures Resolve(a + b, out, rooted) == Resolve(b, Resolve(a, out, rooted), rooted)
    decreases |a|
  {
    if a == [] {
      assert a + b == b;
    } else {
      assert (a + b)[0] == a[0] && (a + b)[1..] == a[1..] + b;
      ResolveParts(a[1..], b, Push(out, a[0], rooted), rooted);
    }
  }

  /** An empty element or a dot is dropped wherever it stands. */
  lemma DotIsDropped(a: seq<string>, dot: string, b: seq<string>, rooted: bool)
    requires dot == "" || dot == "."
    ensures Resolve(a + [dot] + b, [], rooted) == Resolve(a + b, [], rooted)
  {
    assert a + [dot] + b == a + ([dot] + b);
    ResolveParts(a, [dot] + b, [], rooted);
    ResolveParts([dot], b, Resolve(a, [], rooted), rooted);
    ResolveParts(a, b, [], rooted);
    OneResolved(dot, Resolve(a, [], rooted), rooted);
  }

  lemma OneResolved(seg: string, out: seq<string>, rooted: bool)
    ensures Resolve([seg], out, rooted) == Push(out, seg, rooted)
  {
  }

  /** An element and the two dots behind it cancel wherever they stand. */
  lemma UpUndoesDown(a: seq<string>, seg: string, b: seq<string>, rooted: bool)
    requires Ordinary(seg)
    ensures Resolve(a + [seg, ".."] + b, [], rooted) == Resolve(a + b, [], rooted)
  {
    var out := Resolve(a, [], rooted);
    assert a + [seg, ".."] + b == a + ([seg, ".."] + b) && [seg, ".."] == [seg] + [".."];
    ResolveParts(a, [seg, ".."] + b, [], rooted);
    ResolveParts([seg, ".."], b, out, rooted);
    ResolveParts([seg], [".."], out, rooted);
    OneResolved(seg, out, rooted);
    OneResolved("..", out + [seg], rooted);
    assert (out + [seg])[..|out|] == out;
    ResolveParts(a, b, [], rooted);
  }

  /** Two dots at the start of an absolute path are dropped. */
  lemma UpFromRoot(b: seq<string>)
    ensures Resolve([".."] + b, [], true) == Resolve(b, [], true)
  {
    ResolveParts([".."], b, [], true);
    OneResolved("..", [], true);
  }

  /** Two dots at the start of a relative path stay, and so do the ordinary elements behind them. */
  lemma {:induction false} LeadingUpsStay(ups: nat, segs: seq<string>)
    requires AllOrdinary(segs)
    ensures Resolve(Ups(ups) + segs, [], false) == Ups(ups) + segs
  {
    ResolveUps(ups, []);
    assert [] + Ups(ups) == Ups(ups);
    ResolveParts(Ups(ups), segs, [], false);
    ResolveOrdinary(segs, Ups(ups), false);
  }

  function Ups(n: nat): (ups: seq<string>)
    ensures |ups| == n && forall i :: 0 <= i < n ==> ups[i] == ".."
  {
    if n == 0 then [] else [".."] + Ups(n - 1)
  }

  lemma {:induction false} ResolveUps(n: nat, out: seq<string>)
    requires forall i :: 0 <= i < |out| ==> out[i] == ".."
    ensures Resolve(Ups(n), out, false) == out + Ups(n)
    decreases n
  {
    if n == 0 {
      assert out + Ups(0) == out;
    } else {
      ResolveUps(n - 1, out + [".."]);
      assert out + [".."] + Ups(n - 1) == out + Ups(n);
    }
  }
}
