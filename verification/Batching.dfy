/** Collecting log lines and captured packets into batches, and building one INSERT with numbered parameters from a
    batch. */
module Batching {
  import opened Options
  import opened Text

  datatype Event<T> = Item(value: T) | Tick

  function Received<T>(events: seq<Event<T>>): seq<T> {
    if events == [] then []
    else
      var last := events[|events| - 1];
      Received(events[..|events| - 1]) + if last.Item? then [last.value] else []
  }

  function Concat<T>(batches: seq<seq<T>>): seq<T> {
    if batches == [] then [] else Concat(batches[..|batches| - 1]) + batches[|batches| - 1]
  }

  lemma ConcatSnoc<T>(batches: seq<seq<T>>, batch: seq<T>)
    ensures Concat(batches + [batch]) == Concat(batches) + batch
  {
    assert (batches + [batch])[..|batches|] == batches;
  }

  lemma ConcatNext<T>(batches: seq<seq<T>>, i: nat)
    requires i < |batches|
    ensures Concat(batches[..i + 1]) == Concat(batches[..i]) + batches[i]
  {
    assert batches[..i + 1][..i] == batches[..i];
  }

  /** The endless loop of a saver, run over what it receives: nothing is lost, doubled or reordered. */
  method Collect<T>(events: seq<Event<T>>, chunk: nat) returns (batches: seq<seq<T>>, collector: seq<T>)
    requires chunk > 0
    ensures Concat(batches) + collector == Received(events)
    ensures forall b :: 0 <= b < |batches| ==> 0 < |batches[b]| <= chunk
    ensures |collector| < chunk
    ensures |events| > 0 && events[|events| - 1].Tick? ==> collector == []
    ensures (forall k :: 0 <= k < |events| ==> events[k].Item?) ==> forall b :: 0 <= b < |batches| ==>
              |batches[b]| == chunk
  {
    batches, collector := [], [];
    for k := 0 to |events|
      invariant Concat(batches) + collector == Received(events[..k])
      invariant forall b :: 0 <= b < |batches| ==> 0 < |batches[b]| <= chunk
      invariant |collector| < chunk
      invariant k > 0 && events[k - 1].Tick? ==> collector == []
      invariant (forall i :: 0 <= i < k ==> events[i].Item?) ==> forall b :: 0 <= b < |batches| ==>
                  |batches[b]| == chunk
    {
      assert events[..k + 1][..k] == events[..k];
      ghost var before := Concat(batches) + collector;
      match events[k]
      case Item(value) =>
        collector := collector + [value];
        assert Concat(batches) + collector == before + [value];
        if |collector| >= chunk {
          ConcatSnoc(batches, collector);
          batches := batches + [collector];
          collector := [];
        }
      case Tick =>
        if |collector| != 0 {
          ConcatSnoc(batches, collector);
          batches := batches + [collector];
          collector := [];
        }
    }
    assert events[..|events|] == events;
  }

  const LOG_CHUNK := 300
  const HEP_CHUNK := 50
  const LOG_FIELDS := 8
  const HEP_FIELDS := 60

  // ----- parameters of the INSERT -----

  /** $from, $from+1, ... separated by commas. */
  function Marks(from: nat, count: nat): string
    decreases count
  {
    if count == 0 then ""
    else if count == 1 then "$" + Itoa(from)
    else "$" + Itoa(from) + "," + Marks(from + 1, count - 1)
  }

  function Row(marks: string, close: string): string {
    "(" + marks + close
  }

  /** How many parameters the first rows take. */
  function Offset(rows: nat, fields: nat): nat {
    if rows == 0 then 0 else Offset(rows - 1, fields) + fields
  }

  lemma {:induction false} OffsetIs(rows: nat, fields: nat)
    ensures Offset(rows, fields) == rows * fields
  {
    if rows > 0 {
      OffsetIs(rows - 1, fields);
      assert rows * fields == (rows - 1) * fields + fields;
    }
  }

  /** Value lists of `fields` parameters for `rows` rows, each followed by a comma, as the loops build them. */
  function Open(rows: nat, fields: nat): string {
    if rows == 0 then "" else Open(rows - 1, fields) + Row(Marks(Offset(rows - 1, fields) + 1, fields), "),")
  }

  /** The same separated by commas. */
  function ValueLists(rows: nat, fields: nat): string {
    if rows == 0 then "" else Open(rows - 1, fields) + Row(Marks(Offset(rows - 1, fields) + 1, fields), ")")
  }

  /** The statement with this many rows so far. */
  ghost predicate Written(query: string, head: string, rows: nat, fields: nat) {
    query == head + Open(rows, fields)
  }

  lemma NothingWritten(head: string, fields: nat)
    ensures Written(head, head, 0, fields)
  {
  }

  lemma {:induction false} MarksSnoc(from: nat, count: nat)
    requires count > 0
    ensures Marks(from, count + 1) == Marks(from, count) + "," + "$" + Itoa(from + count)
    decreases count
  {
    if count > 1 {
      MarksSnoc(from + 1, count - 1);
    }
  }

  /** The same with a comma behind each, as the inner loops build them. */
  function Commas(from: nat, count: nat): string {
    if count == 0 then "" else Commas(from, count - 1) + ("$" + Itoa(from + count - 1) + ",")
  }

  lemma CommasOf(from: nat, count: nat, d: string, fewer: string)
    requires d == Itoa(from + count) && Commas(from, count) == fewer + ","
    ensures Commas(from, count + 1) == fewer + "," + "$" + d + ","
  {
  }

  lemma {:induction false} CommasIs(from: nat, count: nat)
    requires count > 0
    ensures Commas(from, count) == Marks(from, count) + ","
    decreases count
  {
    if count == 1 {
      assert Commas(from, 0) == "";
    } else {
      CommasIs(from, count - 1);
      MarksSnoc(from, count - 1);
      CommasOf(from, count - 1, Itoa(from + count - 1), Marks(from, count - 1));
    }
  }

  lemma CommasNext(from: nat, count: nat, list: string, mark: string)
    requires list == "(" + Commas(from, count) && mark == "$" + Itoa(from + count) + ","
    ensures list + mark == "(" + Commas(from, count + 1)
  {
    assert Commas(from, count + 1) == Commas(from, count) + mark;
  }

  lemma CutComma(from: nat, count: nat, list: string)
    requires count > 0 && list == "(" + Commas(from, count)
    ensures list[..|list| - 1] == "(" + Marks(from, count)
  {
    CommasIs(from, count);
    CutLast("(" + Marks(from, count), ',');
    assert list == ("(" + Marks(from, count)) + ",";
  }

  lemma CutLast(s: string, c: char)
    ensures (s + [c])[..|s + [c]| - 1] == s
  {
  }

  lemma CutClosing(head: string, open: string, marks: string, query: string, lists: string)
    requires query == open + Row(marks, "),") && lists == open + Row(marks, ")")
    ensures (head + query)[..|head + query| - 1] == head + lists
  {
    assert head + query == (head + lists) + [','];
    CutLast(head + lists, ',');
  }

  lemma OpenEnds(m: nat, fields: nat) returns (open: string, marks: string)
    requires m > 0
    ensures Open(m, fields) == open + Row(marks, "),") && ValueLists(m, fields) == open + Row(marks, ")")
  {
    open, marks := Open(m - 1, fields), Marks(Offset(m - 1, fields) + 1, fields);
  }

  /** Cutting the last character takes the trailing comma, or, without any value list, the end of the statement's
      head. */
  lemma CutOpen(head: string, m: nat, fields: nat, query: string)
    requires head != "" && Written(query, head, m, fields)
    ensures query != "" && query[..|query| - 1] == if m == 0 then head[..|head| - 1] else head + ValueLists(m, fields)
  {
    if m == 0 {
      assert query == head;
    } else {
      var open, marks := OpenEnds(m, fields);
      CutClosing(head, open, marks, Open(m, fields), ValueLists(m, fields));
    }
  }

  /** The inner loop, with the trailing comma cut off. */
  method OneValueList(n: nat, numFields: nat) returns (list: string)
    requires numFields > 0
    ensures list == Row(Marks(n + 1, numFields), "),")
  {
    list := "(";
    for j := 0 to numFields
      invariant list == "(" + Commas(n + 1, j)
    {
      var mark := "$" + Itoa(n + j + 1) + ",";
      CommasNext(n + 1, j, list, mark);
      list := list + mark;
    }
    CutComma(n + 1, numFields, list);
    list := list[..|list| - 1] + "),";
  }

  /** The usable items of a batch, in order. */
  function Kept<V>(packets: seq<Option<seq<V>>>): seq<seq<V>> {
    if packets == [] then []
    else
      var last := packets[|packets| - 1];
      Kept(packets[..|packets| - 1]) + if last.Some? then [last.value] else []
  }

  /** The first `i` packets hold `kept` usable items, whose values are these. */
  ghost predicate Collected<V>(packets: seq<Option<seq<V>>>, i: nat, kept: nat, values: seq<V>) {
    i <= |packets| && kept == |Kept(packets[..i])| && values == Concat(Kept(packets[..i]))
  }

  lemma NoneCollected<V>(packets: seq<Option<seq<V>>>)
    ensures Collected(packets, 0, 0, [])
  {
    assert packets[..0] == [];
  }

  lemma OneCollected<V>(packets: seq<Option<seq<V>>>, i: nat, kept: nat, values: seq<V>)
    requires i < |packets| && Collected(packets, i, kept, values)
    ensures packets[i].Some? ==> Collected(packets, i + 1, kept + 1, values + packets[i].value)
    ensures packets[i].None? ==> Collected(packets, i + 1, kept, values)
  {
    assert packets[..i + 1][..i] == packets[..i];
    if packets[i].Some? {
      ConcatSnoc(Kept(packets[..i]), packets[i].value);
    } else {
      assert Kept(packets[..i]) + [] == Kept(packets[..i]);
    }
  }

  lemma AllCollected<V>(packets: seq<Option<seq<V>>>, kept: nat, values: seq<V>, numFields: nat)
    requires Collected(packets, |packets|, kept, values)
    requires forall i :: 0 <= i < |packets| && packets[i].Some? ==> |packets[i].value| == numFields
    ensures kept == |Kept(packets)| && values == Concat(Kept(packets)) && |values| == |Kept(packets)| * numFields
  {
    assert packets[..|packets|] == packets;
    KeptFields(packets, numFields);
    ConcatLength(Kept(packets), numFields);
  }

  lemma {:induction false} ConcatLength<V>(rows: seq<seq<V>>, numFields: nat)
    requires forall i :: 0 <= i < |rows| ==> |rows[i]| == numFields
    ensures |Concat(rows)| == |rows| * numFields
  {
    if rows != [] {
      ConcatLength(rows[..|rows| - 1], numFields);
      assert |rows| * numFields == (|rows| - 1) * numFields + numFields;
    }
  }

  lemma {:induction false} KeptFields<V>(packets: seq<Option<seq<V>>>, numFields: nat)
    requires forall i :: 0 <= i < |packets| && packets[i].Some? ==> |packets[i].value| == numFields
    ensures forall i :: 0 <= i < |Kept(packets)| ==> |Kept(packets)[i]| == numFields
  {
    if packets != [] {
      KeptFields(packets[..|packets| - 1], numFields);
    }
  }

  /** The value list of one more row. */
  method Append(query: string, ghost head: string, m: nat, numFields: nat) returns (query': string)
    requires numFields > 0 && Written(query, head, m, numFields)
    ensures Written(query', head, m + 1, numFields)
  {
    OffsetIs(m, numFields);
    var list := OneValueList(m * numFields, numFields);
    query' := query + list;
    Assoc(head, Open(m, numFields), list);
  }

  lemma Assoc(a: string, b: string, c: string)
    ensures a + b + c == a + (b + c)
  {
  }

  lemma HepStatement<V>(head: string, packets: seq<Option<seq<V>>>, numFields: nat, kept: nat, query: string,
      values: seq<V>)
    requires head != "" && Written(query, head, kept, numFields)
    requires forall i :: 0 <= i < |packets| && packets[i].Some? ==> |packets[i].value| == numFields
    requires Collected(packets, |packets|, kept, values)
    ensures query != "" && values == Concat(Kept(packets)) && |values| == |Kept(packets)| * numFields
    ensures query[..|query| - 1] ==
            if Kept(packets) == [] then head[..|head| - 1] else head + ValueLists(|Kept(packets)|, numFields)
  {
    AllCollected(packets, kept, values, numFields);
    CutOpen(head, kept, numFields, query);
  }

  /** SaveHEPPackets up to the database call; `None` is a packet without SIP part or time. */
  method HepInsert<V>(head: string, packets: seq<Option<seq<V>>>, numFields: nat)
    returns (query: string, values: seq<V>)
    requires head != "" && numFields > 0
    requires forall i :: 0 <= i < |packets| && packets[i].Some? ==> |packets[i].value| == numFields
    ensures values == Concat(Kept(packets))
    ensures |values| == |Kept(packets)| * numFields
    ensures query == if Kept(packets) == [] then head[..|head| - 1] else head + ValueLists(|Kept(packets)|, numFields)
  {
    query, values := head, [];
    var skipped := 0;
    ghost var kept: nat := 0;
    NoneCollected(packets);
    NothingWritten(head, numFields);
    for i := 0 to |packets|
      invariant kept == i - skipped
      invariant Collected(packets, i, kept, values)
      invariant Written(query, head, kept, numFields)
    {
      OneCollected(packets, i, kept, values);
      if packets[i].None? {
        skipped := skipped + 1;
        continue;
      }
      values := values + packets[i].value;
      query := Append(query, head, i - skipped, numFields);
      kept := kept + 1;
    }
    HepStatement(head, packets, numFields, kept, query, values);
    query := query[..|query| - 1];
  }

  /** SetLogLines up to the database call; an empty batch makes no statement. */
  method LogInsert<V>(head: string, logLines: seq<seq<V>>, numFields: nat)
      returns (sent: bool, query: string, values: seq<V>)
    requires head != "" && numFields > 0
    requires forall i :: 0 <= i < |logLines| ==> |logLines[i]| == numFields
    ensures sent <==> logLines != []
    ensures values == Concat(logLines) && |values| == |logLines| * numFields
    ensures sent ==> query == head + ValueLists(|logLines|, numFields)
  {
    if |logLines| == 0 { return false, "", []; }
    sent, query, values := true, head, [];
    NothingWritten(head, numFields);
    for i := 0 to |logLines|
      invariant values == Concat(logLines[..i])
      invariant Written(query, head, i, numFields)
    {
      ConcatNext(logLines, i);
      values := values + logLines[i];
      query := Append(query, head, i, numFields);
    }
    assert logLines[..|logLines|] == logLines;
    ConcatLength(logLines, numFields);
    CutOpen(head, |logLines|, numFields, query);
    query := query[..|query| - 1];
  }

  // ----- what the database reads -----

  /** The digits that `s` begins with. */
  function DigitsAhead(s: string): (d: string)
    ensures AllDigits(d) && |d| <= |s| && s[..|d|] == d
    ensures |d| < |s| ==> !IsDigit(s[|d|])
  {
    if s == "" || !IsDigit(s[0]) then "" else [s[0]] + DigitsAhead(s[1..])
  }

  /** The numbers of the parameters in a text, from left to right. */
  function Parameters(s: string): seq<nat>
    decreases |s|
  {
    if s == "" then []
    else if s[0] != '$' then Parameters(s[1..])
    else
      var d := DigitsAhead(s[1..]);
      [Value(d)] + Parameters(s[1 + |d|..])
  }

  function UpTo(from: nat, count: nat): seq<nat> {
    seq(count, i requires 0 <= i < count => from + i)
  }

  lemma {:induction false} DigitsAheadOf(d: string, rest: string)
    requires AllDigits(d) && (rest != "" ==> !IsDigit(rest[0]))
    ensures DigitsAhead(d + rest) == d
  {
    if d != "" {
      DigitsAheadOf(d[1..], rest);
      assert (d + rest)[1..] == d[1..] + rest;
    } else {
      assert d + rest == rest;
    }
  }

  /** Wherever `s` stands in front of something that is not a digit, it is read as `ns`. */
  ghost predicate Reads(s: string, ns: seq<nat>) {
    forall rest {:trigger Parameters(s + rest)} :: (rest != "" ==> !IsDigit(rest[0])) ==>
      Parameters(s + rest) == ns + Parameters(rest)
  }

  lemma MarkThenRest(s: string, d: string, rest: string)
    requires s == "$" + d + rest && DigitsAhead(d + rest) == d
    ensures AllDigits(d) && Parameters(s) == [Value(d)] + Parameters(rest)
  {
    assert s[1..] == d + rest && s[1 + |d|..] == rest;
  }

  lemma MarkReads(d: string)
    requires AllDigits(d)
    ensures Reads("$" + d, [Value(d)])
  {
    forall rest | rest != "" ==> !IsDigit(rest[0]) ensures Parameters("$" + d + rest) == [Value(d)] + Parameters(rest) {
      DigitsAheadOf(d, rest);
      MarkThenRest("$" + d + rest, d, rest);
    }
  }

  lemma {:induction false} SkipPlain(front: string, rest: string)
    requires '$' !in front
    ensures Parameters(front + rest) == Parameters(rest)
  {
    if front == "" {
      assert front + rest == rest;
    } else {
      SkipPlain(front[1..], rest);
      assert front[0] in front && (front + rest)[1..] == front[1..] + rest;
    }
  }

  lemma PlainReads(front: string)
    requires '$' !in front
    ensures Reads(front, [])
  {
    forall rest ensures Parameters(front + rest) == [] + Parameters(rest) {
      SkipPlain(front, rest);
    }
  }

  lemma BothRead(a: string, ns: seq<nat>, b: string, ms: seq<nat>)
    requires Reads(a, ns) && Reads(b, ms) && b != "" && !IsDigit(b[0])
    ensures Reads(a + b, ns + ms)
  {
    forall rest | rest != "" ==> !IsDigit(rest[0]) ensures Parameters(a + b + rest) == ns + ms + Parameters(rest) {
      Assoc(a, b, rest);
      assert Parameters(a + (b + rest)) == ns + Parameters(b + rest);
      assert Parameters(b + rest) == ms + Parameters(rest);
    }
  }

  lemma MarksNext(from: nat, count: nat, d: string, tail: string)
    requires count > 1 && d == Itoa(from) && tail == Marks(from + 1, count - 1)
    ensures Marks(from, count) == "$" + d + ("," + tail)
    ensures Value(d) == from && tail != "" && tail[0] == '$'
    ensures UpTo(from, count) == [from] + ([] + UpTo(from + 1, count - 1))
  {
    ValueOfItoa(from);
  }

  lemma LastMark(from: nat, d: string)
    requires d == Itoa(from)
    ensures Marks(from, 1) == "$" + d && Value(d) == from && UpTo(from, 1) == [from]
  {
    ValueOfItoa(from);
  }

  lemma {:induction false} MarksRead(from: nat, count: nat)
    requires count > 0
    ensures Reads(Marks(from, count), UpTo(from, count))
    decreases count
  {
    var d := Itoa(from);
    MarkReads(d);
    if count == 1 {
      LastMark(from, d);
    } else {
      var tail, ns := Marks(from + 1, count - 1), UpTo(from + 1, count - 1);
      MarksNext(from, count, d, tail);
      MarksRead(from + 1, count - 1);
      PlainReads(",");
      BothRead(",", [], tail, ns);
      BothRead("$" + d, [from], "," + tail, [] + ns);
    }
  }

  lemma RowReads(marks: string, ns: seq<nat>, close: string)
    requires Reads(marks, ns) && marks != "" && marks[0] == '$'
    requires '$' !in close && close != "" && !IsDigit(close[0])
    ensures Reads(Row(marks, close), ns)
  {
    PlainReads("(");
    PlainReads(close);
    BothRead("(", [], marks, ns);
    BothRead("(" + marks, [] + ns, close, []);
    assert [] + ns + [] == ns;
  }

  lemma MarksBegin(from: nat, fields: nat)
    requires fields > 0
    ensures Marks(from, fields) != "" && Marks(from, fields)[0] == '$'
  {
  }

  lemma UpToMore(k: nat, fields: nat)
    ensures UpTo(1, k) + UpTo(k + 1, fields) == UpTo(1, k + fields)
  {
  }

  lemma OpenNext(m: nat, fields: nat, k: nat, open: string, marks: string)
    requires k == Offset(m, fields) && open == Open(m, fields) && marks == Marks(k + 1, fields)
    ensures Offset(m + 1, fields) == k + fields
    ensures Open(m + 1, fields) == open + Row(marks, "),") && ValueLists(m + 1, fields) == open + Row(marks, ")")
  {
  }

  lemma OneMoreReads(open: string, ns: seq<nat>, marks: string, ms: seq<nat>)
    requires Reads(open, ns) && Reads(marks, ms) && marks != "" && marks[0] == '$'
    ensures Reads(open + Row(marks, "),"), ns + ms) && Reads(open + Row(marks, ")"), ns + ms)
  {
    RowReads(marks, ms, "),");
    RowReads(marks, ms, ")");
    BothRead(open, ns, Row(marks, "),"), ms);
    BothRead(open, ns, Row(marks, ")"), ms);
  }

  lemma RowMoreReads(open: string, k: nat, marks: string, fields: nat)
    requires fields > 0 && marks == Marks(k + 1, fields) && Reads(open, UpTo(1, k))
    ensures Reads(open + Row(marks, "),"), UpTo(1, k + fields)) && Reads(open + Row(marks, ")"), UpTo(1, k + fields))
  {
    MarksRead(k + 1, fields);
    MarksBegin(k + 1, fields);
    UpToMore(k, fields);
    OneMoreReads(open, UpTo(1, k), marks, UpTo(k + 1, fields));
  }

  lemma {:induction false} OpenReads(rows: nat, fields: nat)
    requires fields > 0
    ensures Reads(Open(rows, fields), UpTo(1, Offset(rows, fields)))
    decreases rows, 0
  {
    if rows == 0 {
      PlainReads("");
    } else {
      NextReads(rows - 1, fields);
    }
  }

  lemma NextReads(m: nat, fields: nat)
    requires fields > 0
    ensures Reads(Open(m + 1, fields), UpTo(1, Offset(m + 1, fields)))
    ensures Reads(ValueLists(m + 1, fields), UpTo(1, Offset(m + 1, fields)))
    decreases m, 1
  {
    var k, open := Offset(m, fields), Open(m, fields);
    var marks := Marks(k + 1, fields);
    OpenReads(m, fields);
    RowMoreReads(open, k, marks, fields);
    OpenNext(m, fields, k, open, marks);
  }

  /** With at least one usable row the statement's parameters are exactly $1 to $k, in order, one for each value;
      a full batch of log lines needs 2400 of them, a full batch of packets 3000. */
  lemma ParametersMatchValues(head: string, rows: nat, fields: nat)
    requires '$' !in head && fields > 0 && rows > 0
    ensures Parameters(head + ValueLists(rows, fields)) == UpTo(1, rows * fields)
    ensures rows <= LOG_CHUNK && fields == LOG_FIELDS ==> rows * fields <= 2400
    ensures rows <= HEP_CHUNK && fields == HEP_FIELDS ==> rows * fields <= 3000
  {
    SkipPlain(head, ValueLists(rows, fields));
    NextReads(rows - 1, fields);
    OffsetIs(rows, fields);
    assert ValueLists(rows, fields) + "" == ValueLists(rows, fields);
  }

  // ----- the text of the statement -----

  /** $from, $from+1, ... as parts. */
  function Places(from: nat, count: nat): (parts: seq<string>)
    ensures |parts| == count && forall j :: 0 <= j < count ==> parts[j] == "$" + Itoa(from + j)
  {
    seq(count, j requires 0 <= j < count => "$" + Itoa(from + j))
  }

  lemma {:induction false} MarksAre(from: nat, count: nat)
    ensures Marks(from, count) == Join(Places(from, count), ",")
    decreases count
  {
    if count > 1 {
      MarksAre(from + 1, count - 1);
      assert Places(from, count)[1..] == Places(from + 1, count - 1);
    }
  }

  /** One list in parentheses per row, numbered on from row to row. */
  function Lists(rows: nat, fields: nat): (lists: seq<string>)
    ensures |lists| == rows
  {
    if rows == 0 then []
    else Lists(rows - 1, fields) + ["(" + Join(Places((rows - 1) * fields + 1, fields), ",") + ")"]
  }

  lemma RowIs(m: nat, fields: nat, list: string)
    requires list == "(" + Join(Places(m * fields + 1, fields), ",") + ")"
    ensures Open(m + 1, fields) == Open(m, fields) + (list + ",") && ValueLists(m + 1, fields) == Open(m, fields) + list
  {
    OffsetIs(m, fields);
    MarksAre(m * fields + 1, fields);
    var marks := Marks(m * fields + 1, fields);
    assert Row(marks, ")") == list && Row(marks, "),") == list + ",";
  }

  lemma NextList(lists: seq<string>, list: string, open: string)
    requires open == if lists == [] then "" else Join(lists, ",") + ","
    ensures open + list == Join(lists + [list], ",")
    ensures open + (list + ",") == Join(lists + [list], ",") + ","
  {
    if lists == [] {
      assert lists + [list] == [list];
    } else {
      JoinSnoc(lists, list, ",");
    }
  }

  lemma {:induction false} OpenIs(rows: nat, fields: nat)
    ensures Open(rows, fields) == if rows == 0 then "" else Join(Lists(rows, fields), ",") + ","
    decreases rows
  {
    if rows > 0 {
      var list := "(" + Join(Places((rows - 1) * fields + 1, fields), ",") + ")";
      OpenIs(rows - 1, fields);
      RowIs(rows - 1, fields, list);
      NextList(Lists(rows - 1, fields), list, Open(rows - 1, fields));
    }
  }

  /** The value lists are these lists with a comma between any two. */
  lemma ValueListsAre(m: nat, fields: nat, lists: seq<string>, list: string)
    requires lists == Lists(m, fields) && list == "(" + Join(Places(m * fields + 1, fields), ",") + ")"
    ensures ValueLists(m + 1, fields) == Join(lists + [list], ",") && Lists(m + 1, fields) == lists + [list]
  {
    OpenIs(m, fields);
    RowIs(m, fields, list);
    NextList(lists, list, Open(m, fields));
  }

  // ----- received, kept and concatenated, part by part -----

  lemma {:induction false} ReceivedParts<T>(a: seq<Event<T>>, b: seq<Event<T>>)
    ensures Received(a + b) == Received(a) + Received(b)
    ensures |b| == 1 ==> Received(b) == match b[0] case Item(value) => [value] case Tick => []
    decreases |b|
  {
    if b == [] {
      assert a + b == a;
    } else {
      ReceivedParts(a, b[..|b| - 1]);
      assert (a + b)[..|a + b| - 1] == a + b[..|b| - 1];
    }
  }

  lemma KeptLast<V>(packets: seq<Option<seq<V>>>, packet: Option<seq<V>>)
    ensures Kept(packets + [packet]) == Kept(packets) + match packet case Some(value) => [value] case None => []
  {
    assert (packets + [packet])[..|packets|] == packets;
  }

  lemma {:induction false} KeptParts<V>(a: seq<Option<seq<V>>>, b: seq<Option<seq<V>>>)
    ensures Kept(a + b) == Kept(a) + Kept(b)
    decreases |b|
  {
    if b == [] {
      assert a + b == a;
    } else {
      var front, last := b[..|b| - 1], b[|b| - 1];
      KeptParts(a, front);
      KeptLast(a + front, last);
      KeptLast(front, last);
      assert a + b == a + front + [last] && b == front + [last];
    }
  }

  lemma {:induction false} ConcatParts<T>(a: seq<seq<T>>, b: seq<seq<T>>)
    ensures Concat(a + b) == Concat(a) + Concat(b)
    ensures |b| == 1 ==> Concat(b) == b[0]
    decreases |b|
  {
    if b == [] {
      assert a + b == a;
    } else {
      ConcatParts(a, b[..|b| - 1]);
      assert (a + b)[..|a + b| - 1] == a + b[..|b| - 1];
    }
  }
}
