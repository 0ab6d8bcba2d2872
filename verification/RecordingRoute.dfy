/** Where a recording is found: the object key, the route that a CDR row shows, the key that the web handler reads back
    from that route, and the spool path. */
module RecordingRoute {
  import opened Options
  import opened Paths
  import opened Text

  const DEFAULT_PREFIX := "pbx/recordings"
  const FREESWITCH_DIR := "/var/lib/freeswitch/recordings"
  const CUSTOMPBX_DIR := "/app/recordings"
  const ROUTE := "./cdr/records/"

  function Padded(n: nat, width: nat): (s: string)
    ensures s != "" && AllDigits(s)
  {
    seq(if |Itoa(n)| < width then width - |Itoa(n)| else 0, _ => '0') + Itoa(n)
  }

  datatype Date = Date(year: nat, month: nat, day: nat)

  /** The call ids that a key can be built from. */
  predicate ValidId(callUUID: string) {
    '/' !in callUUID && Find(callUUID, "..", 0) < 0 && callUUID != ""
  }

  /** objectKey; `None` is the error. */
  function ObjectKey(prefix: string, callUUID: string, extension: string, now: Date): Option<string> {
    if !ValidId(callUUID) then None
    else
      Some(prefix + "/" + Padded(now.year, 4) + "/" + Padded(now.month, 2) + "/" + Padded(now.day, 2) + "/" +
           (callUUID + if extension == "" then ".wav" else extension))
  }

  /** strings.TrimSuffix(_, "/"). */
  function WithoutSlash(s: string): string {
    if s != "" && s[|s| - 1] == '/' then s[..|s| - 1] else s
  }

  /** recordingRoute: only a path that stays inside is shown. */
  function Route(recordPath: string, servedRoot: string): Option<string> {
    var path, root := TrimSpace(recordPath), WithoutSlash(TrimSpace(servedRoot));
    if path == "" || root == "" || root == "/" then None
    else
      var relative :=
        if root + "/" <= path then path[|root| + 1..]
        else if FREESWITCH_DIR + "/" <= path then path[|FREESWITCH_DIR| + 1..]
        else path;
      if StaysInside(Clean(relative)) then Some(ROUTE + Clean(relative)) else None
  }

  /** validatedObjectKey. */
  function Validated(prefix: string, raw: string): Option<string> {
    var key := Unescape(TrimSpace(raw));
    if key.None? then None
    else
      var clean := Clean(key.value);
      if clean == "." || "../" <= clean || IsRooted(clean) || clean != key.value || !(prefix + "/" <= clean) then None
      else Some(clean)
  }

  /** strings.TrimRight(_, "/"). */
  function TrimSlashes(s: string): (t: string)
    ensures t <= s && (t != "" ==> t[|t| - 1] != '/')
    ensures t == s <==> s == "" || s[|s| - 1] != '/'
  {
    if s != "" && s[|s| - 1] == '/' then TrimSlashes(s[..|s| - 1]) else s
  }

  function Empties(k: nat): seq<string> {
    if k == 0 then [] else Empties(k - 1) + [""]
  }

  /** route3 to route9 joined, for a request path with this many segments behind /cdr/records/. */
  function Rejoined(segs: seq<string>): string
    requires |segs| <= 7
  {
    TrimSlashes(Join(segs + Empties(7 - |segs|), "/"))
  }

  /** The web handler: the key that is served for a route, if any. */
  function Served(route: string): Option<string> {
    if !(ROUTE <= route) then None
    else
      var segs := Split(route[|ROUTE|..], "/");
      if |segs| > 7 || segs[0] == "" then None
      else if !(DEFAULT_PREFIX + "/" <= Rejoined(segs)) then None
      else Validated(DEFAULT_PREFIX, Rejoined(segs))
  }

  // ----- rejoining segments -----

  lemma TrimOneSlash(s: string)
    ensures TrimSlashes(s + "/") == TrimSlashes(s)
  {
    assert (s + "/")[..|s + "/"| - 1] == s;
  }

  lemma OneEmptyMore(segs: seq<string>, more: seq<string>)
    requires segs != [] && more == segs + [""]
    ensures TrimSlashes(Join(more, "/")) == TrimSlashes(Join(segs, "/"))
  {
    var joined := Join(segs, "/");
    JoinSnoc(segs, "", "/");
    assert Join(more, "/") == joined + "/";
    TrimOneSlash(joined);
  }

  lemma EmptiesNext(segs: seq<string>, k: nat)
    requires k > 0
    ensures segs + Empties(k) == segs + Empties(k - 1) + [""]
  {
  }

  lemma {:induction false} RejoinedIs(segs: seq<string>, k: nat, all: seq<string>)
    requires segs != [] && all == segs + Empties(k)
    ensures TrimSlashes(Join(all, "/")) == TrimSlashes(Join(segs, "/"))
    decreases k
  {
    if k == 0 {
      assert all == segs;
    } else {
      var fewer := segs + Empties(k - 1);
      EmptiesNext(segs, k);
      RejoinedIs(segs, k - 1, fewer);
      OneEmptyMore(fewer, all);
    }
  }

  lemma RejoinedOf(segs: seq<string>, joined: string)
    requires 0 < |segs| <= 7 && joined == Join(segs, "/")
    ensures Rejoined(segs) == TrimSlashes(joined)
  {
    RejoinedIs(segs, 7 - |segs|, segs + Empties(7 - |segs|));
  }

  /** Splitting and rejoining up to seven segments only loses slashes at the end. */
  lemma RejoinedSplit(clean: string)
    requires |Split(clean, "/")| <= 7
    ensures Rejoined(Split(clean, "/")) == TrimSlashes(clean)
  {
    JoinOfSplit(clean, "/");
    RejoinedOf(Split(clean, "/"), clean);
  }

  // ----- what can be served -----

  lemma TrimmedLength(s: string)
    ensures |TrimSpace(s)| == |s| ==> TrimSpace(s) == s
  {
    assert TrimEnd(s) <= s;
  }

  lemma ValidatedShrinks(prefix: string, raw: string)
    requires Validated(prefix, raw).Some?
    ensures Validated(prefix, raw).value == raw || |Validated(prefix, raw).value| < |raw|
  {
    TrimmedLength(raw);
    UnescapedIff(TrimSpace(raw));
  }

  /** The key served for a route is the text of the route or shorter than it. */
  lemma ServedShrinks(clean: string)
    requires Served(ROUTE + clean).Some?
    ensures Served(ROUTE + clean).value == clean || |Served(ROUTE + clean).value| < |clean|
  {
    assert (ROUTE + clean)[|ROUTE|..] == clean;
    RejoinedSplit(clean);
    ValidatedShrinks(DEFAULT_PREFIX, TrimSlashes(clean));
  }

  lemma JoinEnds(segs: seq<string>)
    requires segs != [] && segs[|segs| - 1] != ""
    ensures Join(segs, "/") != "" && Join(segs, "/")[|Join(segs, "/")| - 1] == segs[|segs| - 1][|segs[|segs| - 1]| - 1]
  {
    if |segs| > 1 {
      JoinLast(segs, "/");
    }
  }

  lemma ValidatedIff(key: string)
    requires DEFAULT_PREFIX + "/" <= key && Clean(key) == key
    ensures Validated(DEFAULT_PREFIX, key) == Some(key) <==> '%' !in key && !IsSpace(key[|key| - 1])
  {
    assert key[0] == 'p';
    TrimmedIff(key);
    UnescapedIff(TrimSpace(key));
  }

  lemma ServedIs(key: string, segs: seq<string>)
    requires segs == Split(key, "/") && |segs| <= 7 && segs[0] != "" && TrimSlashes(key) == key
    requires DEFAULT_PREFIX + "/" <= key
    ensures Served(ROUTE + key) == Validated(DEFAULT_PREFIX, key)
  {
    assert (ROUTE + key)[|ROUTE|..] == key;
    RejoinedSplit(key);
  }

  /** A clean key of at most seven elements is served as it is, unless it holds a percent sign or ends in white
      space. */
  lemma ServedAsIsIff(segs: seq<string>, key: string)
    requires 0 < |segs| <= 7 && AllOrdinary(segs) && key == Join(segs, "/")
    requires DEFAULT_PREFIX + "/" <= key
    ensures Served(ROUTE + key) == Some(key) <==> '%' !in key && !IsSpace(key[|key| - 1])
  {
    OrdinaryIsPlain(segs);
    SplitOfJoin(segs, '/');
    assert Ordinary(segs[0]) && Ordinary(segs[|segs| - 1]);
    JoinEnds(segs);
    ServedIs(key, segs);
    OrdinaryIsClean(segs);
    ValidatedIff(key);
  }

  // ----- the round trip -----

  function Leaf(callUUID: string, extension: string): string {
    callUUID + if extension == "" then ".wav" else extension
  }

  function KeySegments(now: Date, leaf: string): seq<string> {
    ["pbx", "recordings", Padded(now.year, 4), Padded(now.month, 2), Padded(now.day, 2), leaf]
  }

  function KeyHead(now: Date): string {
    "pbx/recordings/" + Padded(now.year, 4) + "/" + Padded(now.month, 2) + "/" + Padded(now.day, 2) + "/"
  }

  lemma KeyIs(callUUID: string, extension: string, now: Date)
    requires ObjectKey(DEFAULT_PREFIX, callUUID, extension, now).Some?
    ensures ObjectKey(DEFAULT_PREFIX, callUUID, extension, now).value == KeyHead(now) + Leaf(callUUID, extension)
  {
    var y, m, d, leaf := Padded(now.year, 4), Padded(now.month, 2), Padded(now.day, 2), Leaf(callUUID, extension);
    assert DEFAULT_PREFIX + "/" == "pbx/recordings/";
  }

  lemma JoinSix(a: string, b: string, y: string, m: string, d: string, leaf: string)
    ensures Join([a, b, y, m, d, leaf], "/") == a + "/" + b + "/" + y + "/" + m + "/" + d + "/" + leaf
  {
    var all := [a, b, y, m, d, leaf];
    var five := [a, b, y, m, d];
    var four := [a, b, y, m];
    var three := [a, b, y];
    assert all == five + [leaf] && five == four + [d] && four == three + [m] && three == [a, b] + [y] &&
        [a, b] == [a] + [b];
    JoinSnoc(five, leaf, "/");
    JoinSnoc(four, d, "/");
    JoinSnoc(three, m, "/");
    JoinSnoc([a, b], y, "/");
    JoinSnoc([a], b, "/");
  }

  lemma KeyIsJoin(now: Date, leaf: string)
    ensures KeyHead(now) + leaf == Join(KeySegments(now, leaf), "/")
  {
    JoinSix("pbx", "recordings", Padded(now.year, 4), Padded(now.month, 2), Padded(now.day, 2), leaf);
    assert "pbx" + "/" + "recordings" + "/" == "pbx/recordings/";
  }

  lemma DigitsAreOrdinary(s: string)
    requires s != "" && AllDigits(s)
    ensures Ordinary(s) && '%' !in s
  {
    assert IsDigit(s[0]);
  }

  /** The leaf is an ordinary element but for one pair of arguments. */
  lemma LeafIs(callUUID: string, extension: string)
    requires callUUID != "" && '/' !in callUUID && '/' !in extension && Find(callUUID, "..", 0) < 0
    ensures '/' !in Leaf(callUUID, extension) && |Leaf(callUUID, extension)| > 1
    ensures Ordinary(Leaf(callUUID, extension)) <==> !(callUUID == "." && extension == ".")
  {
    var leaf := Leaf(callUUID, extension);
    if leaf == ".." {
      assert callUUID == leaf[..|callUUID|];
      assert !OccursAt(callUUID, "..", 0);
    }
  }

  lemma HeadIsPlain(now: Date)
    ensures '%' !in KeyHead(now) && KeyHead(now) != ""
  {
    DigitsAreOrdinary(Padded(now.year, 4));
    DigitsAreOrdinary(Padded(now.month, 2));
    DigitsAreOrdinary(Padded(now.day, 2));
  }

  lemma SegmentsAre(now: Date, leaf: string)
    requires '/' !in leaf
    ensures Plain(KeySegments(now, leaf), '/')
    ensures AllOrdinary(KeySegments(now, leaf)) <==> Ordinary(leaf)
  {
    DigitsAreOrdinary(Padded(now.year, 4));
    DigitsAreOrdinary(Padded(now.month, 2));
    DigitsAreOrdinary(Padded(now.day, 2));
    assert KeySegments(now, leaf)[5] == leaf;
  }

  /** Cleaning changes a key whose leaf is not ordinary. */
  lemma UncleanKey(segs: seq<string>, key: string)
    requires segs != [] && Plain(segs, '/') && !AllOrdinary(segs) && key == Join(segs, "/") && StaysInside(Clean(key))
    ensures Clean(key) != key
  {
    InsideIsOrdinary(key);
    OrdinaryIsPlain(Elements(key));
    SplitOfJoin(Elements(key), '/');
    SplitOfJoin(segs, '/');
  }

  /** The path behind a route is never longer than the file reference. */
  lemma RouteShrinks(recordPath: string, servedRoot: string) returns (clean: string)
    requires Route(recordPath, servedRoot).Some?
    ensures Route(recordPath, servedRoot).value == ROUTE + clean
    ensures |clean| <= |TrimSpace(recordPath)|
    ensures WithoutSlash(TrimSpace(servedRoot)) + "/" <= TrimSpace(recordPath) ==> |clean| < |recordPath|
  {
    var path, root := TrimSpace(recordPath), WithoutSlash(TrimSpace(servedRoot));
    var relative :=
      if root + "/" <= path then path[|root| + 1..]
      else if FREESWITCH_DIR + "/" <= path then path[|FREESWITCH_DIR| + 1..]
      else path;
    clean := Clean(relative);
    CleanNotLonger(relative);
  }

  predicate RoundTrips(key: string, servedRoot: string) {
    Route(key, servedRoot).Some? && Served(Route(key, servedRoot).value) == Some(key)
  }

  lemma ShorterDoesNotReturn(key: string, servedRoot: string)
    requires key != "" && !IsSpace(key[0])
    requires IsSpace(key[|key| - 1]) || WithoutSlash(TrimSpace(servedRoot)) + "/" <= key
    ensures !RoundTrips(key, servedRoot)
  {
    TrimmedIff(key);
    if Route(key, servedRoot).Some? {
      var clean := RouteShrinks(key, servedRoot);
      if Served(ROUTE + clean).Some? {
        ServedShrinks(clean);
      }
    }
  }

  /** For a key that is neither trimmed nor below the served root, the route is the cleaned key. */
  lemma RouteOfKey(key: string, servedRoot: string)
    requires key != "" && key[0] == 'p' && !IsSpace(key[|key| - 1])
    requires var root := WithoutSlash(TrimSpace(servedRoot)); root != "" && root != "/" && !(root + "/" <= key)
    ensures Route(key, servedRoot) == if StaysInside(Clean(key)) then Some(ROUTE + Clean(key)) else None
  {
    assert TrimSpace(key) == key by {
      TrimmedIff(key);
    }
    assert !(FREESWITCH_DIR + "/" <= key) by {
      assert (FREESWITCH_DIR + "/")[0] == '/';
    }
  }

  /** A route whose cleaned key differs from the key does not lead back to it. */
  lemma ChangedDoesNotReturn(key: string)
    requires StaysInside(Clean(key)) && Clean(key) != key
    ensures Served(ROUTE + Clean(key)) != Some(key)
  {
    CleanNotLonger(key);
    if Served(ROUTE + Clean(key)).Some? {
      ServedShrinks(Clean(key));
    }
  }

  lemma OrdinaryKeyRoundTrips(segs: seq<string>, key: string, servedRoot: string)
    requires 0 < |segs| <= 7 && AllOrdinary(segs) && key == Join(segs, "/") && DEFAULT_PREFIX + "/" <= key
    requires Route(key, servedRoot) == if StaysInside(Clean(key)) then Some(ROUTE + Clean(key)) else None
    ensures RoundTrips(key, servedRoot) <==> '%' !in key && !IsSpace(key[|key| - 1])
  {
    OrdinaryIsClean(segs);
    OrdinaryStaysInside(segs);
    ServedAsIsIff(segs, key);
  }

  lemma KeyRoundTrips(segs: seq<string>, key: string, servedRoot: string)
    requires 0 < |segs| <= 7 && Plain(segs, '/') && key == Join(segs, "/")
    requires DEFAULT_PREFIX + "/" <= key && !IsSpace(key[|key| - 1])
    requires var root := WithoutSlash(TrimSpace(servedRoot)); root != "" && root != "/" && !(root + "/" <= key)
    ensures RoundTrips(key, servedRoot) <==> '%' !in key && AllOrdinary(segs)
  {
    assert key[0] == 'p';
    RouteOfKey(key, servedRoot);
    if AllOrdinary(segs) {
      OrdinaryKeyRoundTrips(segs, key, servedRoot);
    } else if StaysInside(Clean(key)) {
      UncleanKey(segs, key);
      ChangedDoesNotReturn(key);
    }
  }

  lemma KeyFacts(callUUID: string, extension: string, now: Date, leaf: string) returns (key: string)
    requires ObjectKey(DEFAULT_PREFIX, callUUID, extension, now) != None && '/' !in extension
    requires leaf == Leaf(callUUID, extension)
    ensures ObjectKey(DEFAULT_PREFIX, callUUID, extension, now) == Some(key)
    ensures key == Join(KeySegments(now, leaf), "/") && DEFAULT_PREFIX + "/" <= key && key[0] == 'p'
    ensures Plain(KeySegments(now, leaf), '/')
    ensures AllOrdinary(KeySegments(now, leaf)) <==> !(callUUID == "." && extension == ".")
    ensures leaf != "" && key[|key| - 1] == leaf[|leaf| - 1] && ('%' in key <==> '%' in leaf)
  {
    key := KeyHead(now) + leaf;
    KeyIs(callUUID, extension, now);
    KeyIsJoin(now, leaf);
    LeafIs(callUUID, extension);
    HeadIsPlain(now);
    SegmentsAre(now, leaf);
  }

  /** A key built under the default prefix, shown as a route and read back by the web handler, is the same key exactly
      when a served root is set that the key does not lie below, the name of the recording holds no percent sign and
      does not end in white space, and it is not "..". */
  lemma RoundTripIff(callUUID: string, extension: string, now: Date, servedRoot: string)
    requires ObjectKey(DEFAULT_PREFIX, callUUID, extension, now).Some? && '/' !in extension
    ensures var key := ObjectKey(DEFAULT_PREFIX, callUUID, extension, now).value;
            var root := WithoutSlash(TrimSpace(servedRoot));
            var leaf := Leaf(callUUID, extension);
            RoundTrips(key, servedRoot) <==>
              && root != "" && root != "/" && !(root + "/" <= key)
              && '%' !in leaf && !IsSpace(leaf[|leaf| - 1])
              && !(callUUID == "." && extension == ".")
  {
    var leaf := Leaf(callUUID, extension);
    var key := KeyFacts(callUUID, extension, now, leaf);
    var root := WithoutSlash(TrimSpace(servedRoot));
    if IsSpace(leaf[|leaf| - 1]) || root + "/" <= key {
      ShorterDoesNotReturn(key, servedRoot);
    } else if root != "" && root != "/" {
      KeyRoundTrips(KeySegments(now, leaf), key, servedRoot);
    }
  }

  lemma LeafChars(callUUID: string, extension: string)
    requires callUUID != "" && forall c :: c in callUUID + extension ==> !IsSpace(c) && c != '%'
    ensures var leaf := Leaf(callUUID, extension); '%' !in leaf && !IsSpace(leaf[|leaf| - 1])
  {
    var leaf, all := Leaf(callUUID, extension), callUUID + extension;
    assert all[|all| - 1] in all;
    if extension == "" {
      assert all == callUUID;
      assert leaf == callUUID + ".wav";
    } else {
      assert leaf == all;
    }
  }

  /** For an absolute served root, and names without white space and percent signs, one name is left out. */
  lemma RoundTrip(callUUID: string, extension: string, now: Date, servedRoot: string)
    requires ObjectKey(DEFAULT_PREFIX, callUUID, extension, now).Some? && '/' !in extension
    requires forall c :: c in callUUID + extension ==> !IsSpace(c) && c != '%'
    requires var root := WithoutSlash(TrimSpace(servedRoot)); |root| > 1 && root[0] == '/'
    ensures RoundTrips(ObjectKey(DEFAULT_PREFIX, callUUID, extension, now).value, servedRoot) <==>
              !(callUUID == "." && extension == ".")
  {
    RoundTripIff(callUUID, extension, now, servedRoot);
    LeafChars(callUUID, extension);
    KeyIs(callUUID, extension, now);
    NotBelow(KeyHead(now) + Leaf(callUUID, extension), WithoutSlash(TrimSpace(servedRoot)));
  }

  lemma NotBelow(key: string, root: string)
    requires key != "" && key[0] != '/' && root != "" && root[0] == '/'
    ensures !(root + "/" <= key)
  {
    assert (root + "/")[0] == '/';
  }

  // ----- one key per call -----

  /** path.Ext: from the last dot of the last element on. */
  function Ext(p: string): (e: string)
    ensures '/' !in e && (e != "" ==> e[0] == '.' && '.' !in e[1..])
  {
    if p == "" || p[|p| - 1] == '/' then ""
    else if p[|p| - 1] == '.' then "."
    else
      var e := Ext(p[..|p| - 1]);
      if e == "" then "" else e + [p[|p| - 1]]
  }

  /** A string falls apart at the last place of a character in one way only. */
  lemma CutAtLast(a: string, x: string, b: string, y: string, c: char)
    requires a + [c] + x == b + [c] + y && c !in x && c !in y
    ensures a == b && x == y
  {
    var s := a + [c] + x;
    assert s[|a|] == c && s[|b|] == c;
    forall i | |a| < i < |s| ensures s[i] != c {
      assert s[i] == x[i - |a| - 1];
    }
    forall i | |b| < i < |s| ensures s[i] != c {
      assert s[i] == y[i - |b| - 1];
    }
    assert a == s[..|a|] == b && x == s[|a| + 1..] == y;
  }

  lemma LeafNames(c: string, name: string) returns (tail: string)
    ensures Leaf(c, Ext(name)) == c + ['.'] + tail && '.' !in tail && '/' !in tail
  {
    var e := Ext(name);
    tail := if e == "" then "wav" else e[1..];
    assert e != "" ==> e == ['.'] + tail;
  }

  /** Keys of different calls differ, whatever their files are called and whenever these were written. */
  lemma KeysDiffer(prefix: string, c: string, name: string, now: Date, d: string, name': string, now': Date)
    requires ObjectKey(prefix, c, Ext(name), now).Some?
    requires ObjectKey(prefix, c, Ext(name), now) == ObjectKey(prefix, d, Ext(name'), now')
    ensures c == d
  {
    var head, leaf := HeadOf(prefix, c, Ext(name), now);
    var head', leaf' := HeadOf(prefix, d, Ext(name'), now');
    var tail := LeafNames(c, name);
    var tail' := LeafNames(d, name');
    CutAtLast(head, leaf, head', leaf', '/');
    CutAtLast(c, tail, d, tail', '.');
  }

  lemma HeadOf(prefix: string, c: string, e: string, now: Date) returns (head: string, leaf: string)
    requires ObjectKey(prefix, c, e, now).Some? && '/' !in e
    ensures ObjectKey(prefix, c, e, now).value == head + ['/'] + leaf
    ensures head == prefix + "/" + Padded(now.year, 4) + "/" + Padded(now.month, 2) + "/" + Padded(now.day, 2)
    ensures leaf == Leaf(c, e) && '/' !in leaf
  {
    head := prefix + "/" + Padded(now.year, 4) + "/" + Padded(now.month, 2) + "/" + Padded(now.day, 2);
    leaf := Leaf(c, e);
  }

  // ----- the spool -----

  /** spoolPath: both names of the shared volume lead to one path below CustomPBX's mount point. */
  function SpoolPath(raw: string): Option<string> {
    var relative := Relative(TrimSpace(raw), FREESWITCH_DIR, CUSTOMPBX_DIR);
    if relative.None? then None else InSpool(relative.value)
  }

  /** What follows the first of the two directories that the path lies below. */
  function Relative(path: string, first: string, second: string): Option<string> {
    if first + "/" <= path then Some(path[|first| + 1..])
    else if second + "/" <= path then Some(path[|second| + 1..])
    else None
  }

  function InSpool(relative: string): Option<string> {
    if StaysInside(Clean(relative)) then Some(Clean(CUSTOMPBX_DIR + "/" + Clean(relative))) else None
  }

  lemma {:induction false} RootedIsClean(segs: seq<string>)
    requires segs != [] && AllOrdinary(segs)
    ensures Clean("/" + Join(segs, "/")) == "/" + Join(segs, "/")
  {
    var p := "/" + Join(segs, "/");
    var all := [""] + segs;
    OrdinaryIsPlain(segs);
    assert Join(all, "/") == "" + "/" + Join(segs, "/") by { assert all[1..] == segs; }
    SplitOfJoin(all, '/');
    assert all[1..] == segs && Push([], "", true) == [];
    ResolveOrdinary(segs, [], true);
    assert [] + segs == segs;
  }

  lemma JoinCons(first: string, rest: seq<string>, sep: string)
    requires rest != []
    ensures Join([first] + rest, sep) == first + sep + Join(rest, sep)
  {
    assert ([first] + rest)[1..] == rest;
  }

  lemma JoinMount(els: seq<string>) returns (segs: seq<string>)
    requires els != [] && AllOrdinary(els)
    ensures segs != [] && AllOrdinary(segs) && "/" + Join(segs, "/") == CUSTOMPBX_DIR + "/" + Join(els, "/")
  {
    var rest := ["recordings"] + els;
    segs := ["app"] + rest;
    JoinCons("recordings", els, "/");
    JoinCons("app", rest, "/");
    var tail := Join(els, "/");
    assert "/" + ("app" + "/" + ("recordings" + "/" + tail)) == "/app/recordings" + "/" + tail;
  }

  /** An accepted path is the mount point followed by the cleaned relative path, whose elements are all ordinary. */
  lemma InSpoolIs(relative: string)
    requires StaysInside(Clean(relative))
    ensures InSpool(relative) == Some(CUSTOMPBX_DIR + "/" + Clean(relative))
    ensures AllOrdinary(Elements(relative)) && Clean(relative) == Join(Elements(relative), "/")
  {
    InsideIsOrdinary(relative);
    var segs := JoinMount(Elements(relative));
    RootedIsClean(segs);
  }

  lemma SpoolPathInside(raw: string)
    requires SpoolPath(raw).Some?
    ensures exists segs :: segs != [] && AllOrdinary(segs) &&
              SpoolPath(raw).value == CUSTOMPBX_DIR + "/" + Join(segs, "/")
  {
    var relative := Relative(TrimSpace(raw), FREESWITCH_DIR, CUSTOMPBX_DIR).value;
    InSpoolIs(relative);
    InsideIsOrdinary(relative);
  }

  lemma TrimBelow(dir: string, name: string)
    requires dir != "" && !IsSpace(dir[0])
    ensures TrimSpace(dir + "/" + name) == dir + "/" + TrimEnd(name)
    ensures (dir + "/" + TrimEnd(name))[|dir| + 1..] == TrimEnd(name)
  {
    var front := dir + "/";
    TrimmedIff(front + name);
    TrimEndBehind(front, name);
  }

  lemma Differ(dir: string, path: string, i: nat)
    requires i < |dir| && i < |path| && dir[i] != path[i]
    ensures !(dir + "/" <= path)
  {
    assert (dir + "/")[i] == dir[i];
  }

  lemma RelativeOf(first: string, second: string, i: nat, name: string)
    requires first != "" && second != "" && !IsSpace(first[0]) && !IsSpace(second[0])
    requires i < |first| && i < |second| && first[i] != second[i]
    ensures Relative(TrimSpace(first + "/" + name), first, second) == Some(TrimEnd(name))
    ensures Relative(TrimSpace(second + "/" + name), first, second) == Some(TrimEnd(name))
  {
    TrimBelow(first, name);
    TrimBelow(second, name);
    Differ(first, second + "/" + TrimEnd(name), i);
  }

  /** Both names of a file on the shared volume lead to the same spool path. */
  lemma SameSpoolPath(name: string)
    ensures SpoolPath(FREESWITCH_DIR + "/" + name) == SpoolPath(CUSTOMPBX_DIR + "/" + name) == InSpool(TrimEnd(name))
  {
    RelativeOf(FREESWITCH_DIR, CUSTOMPBX_DIR, 1, name);
  }

  /** A spool path is its own spool path exactly when it does not end in white space. */
  lemma SpoolPathTwiceIff(raw: string)
    requires SpoolPath(raw).Some?
    ensures var p := SpoolPath(raw).value; p != "" && (SpoolPath(p) == Some(p) <==> !IsSpace(p[|p| - 1]))
  {
    SpoolPathInside(raw);
    var segs :| segs != [] && AllOrdinary(segs) && SpoolPath(raw).value == CUSTOMPBX_DIR + "/" + Join(segs, "/");
    var name := Join(segs, "/");
    var p := CUSTOMPBX_DIR + "/" + name;
    assert Ordinary(segs[0]) && Ordinary(segs[|segs| - 1]);
    JoinEnds(segs);
    SameSpoolPath(name);
    if !IsSpace(p[|p| - 1]) {
      OrdinaryIsClean(segs);
      OrdinaryStaysInside(segs);
      InSpoolIs(name);
    } else if StaysInside(Clean(TrimEnd(name))) {
      InSpoolIs(TrimEnd(name));
      CleanNotLonger(TrimEnd(name));
    }
  }

  lemma FirstPart(p: string)
    ensures p == ".." || "../" <= p ==> Split(p, "/")[0] == ".."
    ensures p == "." ==> Split(p, "/")[0] == "."
  {
    if "../" <= p {
      FindFirst("..", '/', p[3..]);
      assert p == ".." + ['/'] + p[3..];
    } else if p == ".." || p == "." {
      SplitOfJoin([p], '/');
    }
  }

  lemma OrdinaryStaysInside(segs: seq<string>)
    requires segs != [] && AllOrdinary(segs)
    ensures StaysInside(Join(segs, "/"))
  {
    assert Ordinary(segs[0]);
    OrdinaryIsPlain(segs);
    SplitOfJoin(segs, '/');
    JoinBegins(segs, "/");
    assert segs[0][0] in segs[0];
    FirstPart(Join(segs, "/"));
  }

  // ----- the parts of a key, of a route and of a spool path -----

  /** A padded number has its value and at least the width. */
  lemma PaddedIs(n: nat, width: nat)
    ensures Value(Padded(n, width)) == n
    ensures |Padded(n, width)| == if |Itoa(n)| < width then width else |Itoa(n)|
  {
    var zeros := seq(if |Itoa(n)| < width then width - |Itoa(n)| else 0, _ => '0');
    ValueOfItoa(n);
    ValueOfZeros(zeros, Itoa(n));
  }

  lemma {:induction false} ItoaShort(n: nat, k: nat)
    requires 0 < k && n < TenTo(k)
    ensures |Itoa(n)| <= k
  {
    if n >= 10 {
      ItoaShort(n / 10, k - 1);
    }
  }

  function TenTo(k: nat): nat {
    if k == 0 then 1 else 10 * TenTo(k - 1)
  }

  lemma PaddedTo(n: nat, width: nat)
    requires 0 < width && n < TenTo(width)
    ensures |Padded(n, width)| == width
  {
    PaddedIs(n, width);
    ItoaShort(n, width);
  }

  /** A key is the prefix, the year, the month and the day in digits, and the call id with the extension. */
  lemma KeyReads(prefix: string, callUUID: string, extension: string, now: Date, key: string)
      returns (year: string, month: string, day: string)
    requires ObjectKey(prefix, callUUID, extension, now) == Some(key)
    ensures var end := if extension != "" then extension else ".wav";
            key == prefix + "/" + year + "/" + month + "/" + day + "/" + callUUID + end
    ensures AllDigits(year) && AllDigits(month) && AllDigits(day)
    ensures Value(year) == now.year && Value(month) == now.month && Value(day) == now.day
    ensures now.year <= 9999 && now.month <= 12 && now.day <= 31 ==> |year| == 4 && |month| == 2 && |day| == 2
  {
    year, month, day := Padded(now.year, 4), Padded(now.month, 2), Padded(now.day, 2);
    PaddedIs(now.year, 4);
    PaddedIs(now.month, 2);
    PaddedIs(now.day, 2);
    if now.year <= 9999 && now.month <= 12 && now.day <= 31 {
      assert TenTo(4) == 10000 && TenTo(2) == 100;
      PaddedTo(now.year, 4);
      PaddedTo(now.month, 2);
      PaddedTo(now.day, 2);
    }
    var end := if extension != "" then extension else ".wav";
    LeafLast(prefix + "/" + year + "/" + month + "/" + day + "/", callUUID, end);
  }

  lemma LeafLast(front: string, a: string, b: string)
    ensures front + (a + b) == front + a + b
  {
  }

  /** A call id is refused exactly when it is empty, holds a slash, or holds two dots in a row. */
  lemma KeyRefusedIff(prefix: string, callUUID: string, extension: string, now: Date)
    ensures ObjectKey(prefix, callUUID, extension, now) == None <==>
            || callUUID == "" || '/' in callUUID
            || exists i :: 0 <= i < |callUUID| - 1 && callUUID[i] == callUUID[i + 1] == '.'
  {
    if i :| 0 <= i < |callUUID| - 1 && callUUID[i] == callUUID[i + 1] == '.' {
      assert OccursAt(callUUID, "..", i);
    }
    if Find(callUUID, "..", 0) >= 0 {
      var i := Find(callUUID, "..", 0);
      assert callUUID[i..i + 2][0] == callUUID[i] && callUUID[i..i + 2][1] == callUUID[i + 1];
    }
  }

  lemma DatePart(n: nat, n': nat, width: nat)
    requires Padded(n, width) == Padded(n', width)
    ensures n == n'
  {
    PaddedIs(n, width);
    PaddedIs(n', width);
  }

  lemma PaddedHasNoSlash(n: nat, width: nat)
    ensures '/' !in Padded(n, width)
  {
  }

  /** Equal keys under one prefix are of one day. */
  lemma DatesDiffer(prefix: string, c: string, e: string, now: Date, d: string, e': string, now': Date)
    requires ObjectKey(prefix, c, e, now).Some? && ObjectKey(prefix, c, e, now) == ObjectKey(prefix, d, e', now')
    requires '/' !in e && '/' !in e'
    ensures now == now'
  {
    var head, leaf := HeadOf(prefix, c, e, now);
    var head', leaf' := HeadOf(prefix, d, e', now');
    CutAtLast(head, leaf, head', leaf', '/');
    var y, m, r := Padded(now.year, 4), Padded(now.month, 2), Padded(now.day, 2);
    var y', m', r' := Padded(now'.year, 4), Padded(now'.month, 2), Padded(now'.day, 2);
    PaddedHasNoSlash(now.year, 4);
    PaddedHasNoSlash(now'.year, 4);
    PaddedHasNoSlash(now.month, 2);
    PaddedHasNoSlash(now'.month, 2);
    PaddedHasNoSlash(now.day, 2);
    PaddedHasNoSlash(now'.day, 2);
    CutAtLast(prefix + "/" + y + "/" + m, r, prefix + "/" + y' + "/" + m', r', '/');
    CutAtLast(prefix + "/" + y, m, prefix + "/" + y', m', '/');
    CutAtLast(prefix, y, prefix, y', '/');
    DatePart(now.year, now'.year, 4);
    DatePart(now.month, now'.month, 2);
    DatePart(now.day, now'.day, 2);
  }

  /** The extension of a file begins at its last dot, if that stands in the last element. */
  lemma {:induction false} ExtIs(front: string, e: string)
    requires '.' !in e && '/' !in e
    ensures Ext(front + "." + e) == "." + e
    decreases |e|
  {
    var p := front + "." + e;
    if e == "" {
      assert p[|p| - 1] == '.';
    } else {
      ExtIs(front, e[..|e| - 1]);
      assert p[..|p| - 1] == front + "." + e[..|e| - 1];
      assert e[|e| - 1] in e;
    }
  }

  lemma {:induction false} NoExt(front: string, name: string)
    requires '.' !in name && '/' !in name && (front == "" || front[|front| - 1] == '/')
    ensures Ext(front + name) == ""
    decreases |name|
  {
    if name == "" {
      assert front + name == front;
    } else {
      NoExt(front, name[..|name| - 1]);
      assert (front + name)[..|front + name| - 1] == front + name[..|name| - 1];
      assert name[|name| - 1] in name;
    }
  }

  /** One slash at the end of the served root does not count. */
  lemma OneSlashCut(root: string)
    ensures WithoutSlash(root + "/") == root
    ensures root != "" && root[|root| - 1] != '/' ==> WithoutSlash(root) == root
  {
    assert (root + "/")[..|root + "/"| - 1] == root;
  }

  /** Below the served root, or else below the FreeSWITCH directory, the rest of the path is shown; any other path is
      shown as it is; and only one that stays inside. Without a served root nothing is. */
  lemma RouteStrips(recordPath: string, servedRoot: string, dir: string, rest: string, path: string, root: string)
    requires path == TrimSpace(recordPath) == dir + rest && path != "" && root == WithoutSlash(TrimSpace(servedRoot))
    requires || (dir == root + "/")
             || (dir == "/var/lib/freeswitch/recordings/" && !(root + "/" <= path))
             || (dir == "" && !(root + "/" <= path) && !("/var/lib/freeswitch/recordings/" <= path))
    ensures Route(recordPath, servedRoot) ==
            if root != "" && root != "/" && StaysInside(Clean(rest)) then Some("./cdr/records/" + Clean(rest)) else None
  {
    assert FREESWITCH_DIR + "/" == "/var/lib/freeswitch/recordings/";
    assert path[|dir|..] == rest;
    assert dir <= path;
  }

  /** A key is accepted exactly when it decodes to a path below the prefix that cleaning does not change. */
  lemma ValidatedExactly(prefix: string, raw: string, key: string)
    ensures Validated(prefix, raw) == Some(key) <==>
            && Unescape(TrimSpace(raw)) == Some(key) && prefix + "/" <= key
            && exists segs :: segs != [] && AllOrdinary(segs) && key == Join(segs, "/")
  {
    if Validated(prefix, raw) == Some(key) {
      assert prefix + "/" <= key;
      assert key[|prefix|] == (prefix + "/")[|prefix|] == '/';
      InsideIsOrdinary(key);
      assert key == Join(Elements(key), "/");
    }
    if segs :| segs != [] && AllOrdinary(segs) && key == Join(segs, "/") {
      OrdinaryIsClean(segs);
      OrdinaryStaysInside(segs);
    }
  }

  /** A path of ordinary elements below either name of the shared volume is found below the mount point, and no path
      outside of both is accepted. */
  lemma SpoolPathOf(segs: seq<string>, rest: string)
    requires segs != [] && AllOrdinary(segs) && rest == Join(segs, "/") && rest != "" && !IsSpace(rest[|rest| - 1])
    ensures SpoolPath("/var/lib/freeswitch/recordings/" + rest) == Some("/app/recordings/" + rest)
    ensures SpoolPath("/app/recordings/" + rest) == Some("/app/recordings/" + rest)
  {
    OrdinaryInSpool(segs, rest);
    SameSpoolPath(rest);
    BothDirs(rest);
    assert TrimEnd(rest) == rest;
  }

  lemma OrdinaryInSpool(segs: seq<string>, rest: string)
    requires segs != [] && AllOrdinary(segs) && rest == Join(segs, "/")
    ensures InSpool(rest) == Some(CUSTOMPBX_DIR + "/" + rest)
  {
    OrdinaryIsClean(segs);
    OrdinaryStaysInside(segs);
    InSpoolIs(rest);
  }

  lemma BothDirs(rest: string)
    ensures FREESWITCH_DIR + "/" + rest == "/var/lib/freeswitch/recordings/" + rest
    ensures CUSTOMPBX_DIR + "/" + rest == "/app/recordings/" + rest
  {
    assert FREESWITCH_DIR + "/" == "/var/lib/freeswitch/recordings/" && CUSTOMPBX_DIR + "/" == "/app/recordings/";
  }

  lemma OutsideIsRefused(raw: string)
    requires !("/var/lib/freeswitch/recordings/" <= TrimSpace(raw)) && !("/app/recordings/" <= TrimSpace(raw))
    ensures SpoolPath(raw) == None
  {
    assert FREESWITCH_DIR + "/" == "/var/lib/freeswitch/recordings/" && CUSTOMPBX_DIR + "/" == "/app/recordings/";
  }
}
