/** Removing the gateways of other profiles by swapping with the last element, inside a loop that ranges over the
    slice as it was at the start. */
module GatewayFilter {

  /** An element of the slice: empty, of another type, or a gateway of profile `parent`. */
  datatype Element = Nil | Other(what: int) | Gateway(id: int, parent: int)

  predicate Foreign(known: set<int>, e: Element) {
    e.Gateway? && e.parent !in known
  }

  function Count(known: set<int>, s: seq<Element>, k: nat): (n: nat)
    requires k <= |s|
    ensures n <= k
  {
    if k == 0 then 0 else Count(known, s, k - 1) + if Foreign(known, s[k - 1]) then 1 else 0
  }

  function ForeignPlaces(known: set<int>, s: seq<Element>, k: nat): (places: set<int>)
    requires k <= |s|
    ensures forall j :: j in places <==> 0 <= j < k && s[j].Gateway? && s[j].parent !in known
  {
    set j | 0 <= j < k && s[j].Gateway? && s[j].parent !in known
  }

  lemma {:induction false} CountIs(known: set<int>, s: seq<Element>, k: nat)
    requires k <= |s|
    ensures Count(known, s, k) == |ForeignPlaces(known, s, k)|
    decreases k
  {
    if k > 0 {
      CountIs(known, s, k - 1);
      var before := ForeignPlaces(known, s, k - 1);
      if Foreign(known, s[k - 1]) {
        assert ForeignPlaces(known, s, k) == before + {k - 1};
      } else {
        assert ForeignPlaces(known, s, k) == before;
      }
    } else {
      assert ForeignPlaces(known, s, 0) == {};
    }
  }

  lemma {:induction false} CountGrows(known: set<int>, s: seq<Element>, j: nat, k: nat)
    requires j <= k <= |s|
    ensures Count(known, s, j) <= Count(known, s, k) <= Count(known, s, j) + (k - j)
    decreases k
  {
    if j < k {
      CountGrows(known, s, j, k - 1);
    }
  }

  /** What stands at `j` in the result: the original, or the element that was last when the original was removed. */
  function Filled(known: set<int>, s: seq<Element>, j: nat): Element
    requires j < |s|
  {
    var last := |s| - Count(known, s, j + 1);
    if Foreign(known, s[j]) && last < |s| then s[last] else s[j]
  }

  /** The loop passed `len` elements and removed as many as then were missing. */
  ghost predicate Stops(known: set<int>, s: seq<Element>, len: nat) {
    len <= |s| &&
    (len + Count(known, s, len) == |s| ||
     (len < |s| && Foreign(known, s[len]) && len + Count(known, s, len) + 1 == |s|))
  }

  /** Before pass `i`, element by element. */
  ghost predicate Progress(known: set<int>, start: seq<Element>, s: seq<Element>, i: nat, length: nat) {
    && length <= |s| == |start| && i <= |s|
    && (i <= length ==> length + Count(known, start, i) == |s|)
    && (i > length ==> Stops(known, start, length))
    && (forall j :: 0 <= j < i && j < length ==> s[j] == Filled(known, start, j))
    && (forall j :: i <= j < length ==> s[j] == start[j])
    && (forall j :: length <= j < |s| ==> s[j] == Nil)
  }

  /** Nothing is lost but what was removed, and that was foreign. */
  ghost predicate Accounted(known: set<int>, start: seq<Element>, s: seq<Element>, length: nat, removed: seq<Element>) {
    && length <= |s|
    && multiset(s[..length]) + multiset(removed) == multiset(start)
    && (forall e :: e in removed ==> Foreign(known, e))
  }

  /** What the loop leaves, element by element. */
  ghost predicate Filtered(known: set<int>, start: seq<Element>, s: seq<Element>, length: nat) {
    && length <= |s| == |start| && Stops(known, start, length)
    && (forall j :: 0 <= j < length ==> s[j] == Filled(known, start, j))
    && (forall j :: length <= j < |s| ==> s[j] == Nil)
  }

  lemma LastPass(known: set<int>, start: seq<Element>, s: seq<Element>, length: nat)
    requires Progress(known, start, s, |s|, length)
    ensures Filtered(known, start, s, length)
  {
  }

  lemma FirstPass(known: set<int>, s: seq<Element>)
    ensures Progress(known, s, s, 0, |s|) && Accounted(known, s, s, |s|, [])
  {
    assert s[..|s|] == s;
  }

  lemma KeepStep(known: set<int>, start: seq<Element>, s: seq<Element>, i: nat, length: nat)
    requires Progress(known, start, s, i, length) && i < |s| && !Foreign(known, s[i])
    ensures Progress(known, start, s, i + 1, length)
  {
  }

  function Dropped(s: seq<Element>, i: nat, length: nat): seq<Element>
    requires i < length <= |s|
  {
    s[i := s[length - 1]][length - 1 := Nil]
  }

  lemma DropStep(known: set<int>, start: seq<Element>, s: seq<Element>, i: nat, length: nat)
    requires Progress(known, start, s, i, length) && i < |s| && Foreign(known, s[i])
    ensures i < length && Progress(known, start, Dropped(s, i, length), i + 1, length - 1)
  {
    assert i < length;
    assert Count(known, start, i + 1) == Count(known, start, i) + 1;
  }

  lemma DropBag(s: seq<Element>, i: nat, length: nat)
    requires i < length <= |s|
    ensures multiset(s[..length]) == multiset(Dropped(s, i, length)[..length - 1]) + multiset{s[i]}
  {
    var t := Dropped(s, i, length)[..length - 1];
    assert s[..length] == s[..length - 1] + [s[length - 1]];
    if i == length - 1 {
      assert t == s[..length - 1];
    } else {
      assert t == s[..length - 1][i := s[length - 1]];
    }
  }

  lemma DropAccounted(known: set<int>, start: seq<Element>, s: seq<Element>, i: nat, length: nat, removed: seq<Element>)
    requires Accounted(known, start, s, length, removed) && i < length && Foreign(known, s[i])
    ensures Accounted(known, start, Dropped(s, i, length), length - 1, removed + [s[i]])
  {
    DropBag(s, i, length);
  }

  lemma DropPass(known: set<int>, start: seq<Element>, s: seq<Element>, i: nat, length: nat, removed: seq<Element>)
    requires i < |s| && Foreign(known, s[i])
    requires Progress(known, start, s, i, length) && Accounted(known, start, s, length, removed)
    ensures i < length
    ensures Progress(known, start, Dropped(s, i, length), i + 1, length - 1)
    ensures Accounted(known, start, Dropped(s, i, length), length - 1, removed + [s[i]])
  {
    DropStep(known, start, s, i, length);
    DropAccounted(known, start, s, i, length, removed);
  }

  method SwapOut(gateways: array<Element>, i: nat, length: nat)
    requires i < length <= gateways.Length
    modifies gateways
    ensures gateways[..] == Dropped(old(gateways[..]), i, length)
  {
    gateways[i] := gateways[length - 1];
    gateways[length - 1] := Nil;
  }

  /** The result is `gateways[..length]`.  The access `gateways[i]` is always inside the shrunken slice. */
  method KeepKnown(gateways: array<Element>, known: set<int>) returns (length: nat, ghost removed: seq<Element>)
    modifies gateways
    ensures Accounted(known, old(gateways[..]), gateways[..], length, removed)
    ensures Filtered(known, old(gateways[..]), gateways[..], length)
  {
    ghost var start := gateways[..];
    length := gateways.Length;
    removed := [];
    FirstPass(known, start);
    for i := 0 to gateways.Length
      invariant Progress(known, start, gateways[..], i, length)
      invariant Accounted(known, start, gateways[..], length, removed)
    {
      length, removed := Pass(gateways, known, start, i, length, removed);
    }
    LastPass(known, start, gateways[..], length);
  }

  method Pass(gateways: array<Element>, known: set<int>, ghost start: seq<Element>, i: nat, length: nat,
      ghost removed: seq<Element>)
    returns (length': nat, ghost removed': seq<Element>)
    requires i < gateways.Length
    requires Progress(known, start, gateways[..], i, length) && Accounted(known, start, gateways[..], length, removed)
    modifies gateways
    ensures Progress(known, start, gateways[..], i + 1, length')
    ensures Accounted(known, start, gateways[..], length', removed')
  {
    length', removed' := length, removed;
    var g := gateways[i];
    ghost var s := gateways[..];
    if !g.Gateway? {
      KeepStep(known, start, s, i, length);
      return;
    }
    if g.parent in known {
      KeepStep(known, start, s, i, length);
      return;
    }
    DropPass(known, start, s, i, length, removed);
    SwapOut(gateways, i, length);
    length' := length - 1;
    removed' := removed + [s[i]];
  }

  /** Every element that is not foreign is kept as often as it occurred, and nothing empty comes in. */
  lemma KnownAreKept(known: set<int>, start: seq<Element>, s: seq<Element>, length: nat, removed: seq<Element>,
      e: Element)
    requires Accounted(known, start, s, length, removed)
    ensures e.Gateway? && e.parent !in known ==> multiset(s[..length])[e] <= multiset(start)[e]
    ensures !(e.Gateway? && e.parent !in known) ==> multiset(s[..length])[e] == multiset(start)[e]
  {
    var left, gone := multiset(s[..length]), multiset(removed);
    assert (left + gone)[e] == left[e] + gone[e];
    if !Foreign(known, e) {
      assert e !in removed;
      assert gone[e] == 0;
    }
  }

  lemma NothingEmpty(known: set<int>, start: seq<Element>, s: seq<Element>, length: nat, removed: seq<Element>)
    requires Accounted(known, start, s, length, removed) && Nil !in start
    ensures Nil !in s[..length]
  {
    KnownAreKept(known, start, s, length, removed, Nil);
    assert Nil !in multiset(start);
    assert Nil !in multiset(s[..length]);
  }

  /** Exactly those inputs are cleaned of all foreign gateways in which none stands behind place n - f, where n is the
      length and f the number of foreign ones. */
  lemma CleanIff(known: set<int>, start: seq<Element>, length: nat)
    requires Stops(known, start, length)
    ensures (forall j :: 0 <= j < length ==>
               var e := Filled(known, start, j); e.Gateway? ==> e.parent in known) <==>
            (forall p :: 0 <= p < |start| && start[p].Gateway? && start[p].parent !in known ==>
               p <= |start| - |ForeignPlaces(known, start, |start|)|)
  {
    CountIs(known, start, |start|);
    var n := |start|;
    var f := Count(known, start, n);
    if forall p :: 0 <= p < n && Foreign(known, start[p]) ==> p <= n - f {
      forall j | 0 <= j < length ensures !Foreign(known, Filled(known, start, j)) {
        CleanEach(known, start, length, j);
      }
    } else {
      var p :| 0 <= p < n && Foreign(known, start[p]) && p > n - f;
      Remains(known, start, length, p);
    }
  }

  lemma CleanEach(known: set<int>, start: seq<Element>, length: nat, j: nat)
    requires Stops(known, start, length) && j < length
    requires forall p :: 0 <= p < |start| && Foreign(known, start[p]) ==> p <= |start| - Count(known, start, |start|)
    ensures !Foreign(known, Filled(known, start, j))
  {
    var n := |start|;
    var last := n - Count(known, start, j + 1);
    CountGrows(known, start, j + 1, length);
    if Foreign(known, start[j]) && last < n && Foreign(known, start[last]) {
      CountGrows(known, start, j + 1, last);
      CountGrows(known, start, last + 1, n);
    }
  }

  lemma {:induction false} ForeignFrom(known: set<int>, s: seq<Element>, k: nat, n: nat) returns (q: nat)
    requires k <= n <= |s| && Count(known, s, k) < Count(known, s, n)
    ensures k <= q < n && Foreign(known, s[q])
    decreases n
  {
    if Foreign(known, s[n - 1]) {
      q := n - 1;
    } else {
      q := ForeignFrom(known, s, k, n - 1);
    }
  }

  lemma {:induction false} NthForeign(known: set<int>, s: seq<Element>, c: nat, n: nat) returns (j: nat)
    requires n <= |s| && 0 < c <= Count(known, s, n)
    ensures j < n && Foreign(known, s[j]) && Count(known, s, j + 1) == c
    decreases n
  {
    if Foreign(known, s[n - 1]) && Count(known, s, n) == c {
      j := n - 1;
    } else {
      j := NthForeign(known, s, c, n - 1);
    }
  }

  lemma Remains(known: set<int>, start: seq<Element>, length: nat, p: nat)
    requires Stops(known, start, length) && p < |start| && Foreign(known, start[p])
    requires p > |start| - Count(known, start, |start|)
    ensures exists j :: 0 <= j < length && Foreign(known, Filled(known, start, j))
  {
    var n, taken := |start|, Count(known, start, length);
    var q := p;
    if p < n - taken {
      q := ForeignFrom(known, start, n - taken, n);
    }
    var j := NthForeign(known, start, n - q, length);
    assert Filled(known, start, j) == start[q];
  }
}
