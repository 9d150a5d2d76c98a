/** Iterator reads: `next` and the bounded pages of `iterator_take`. */
module Paging {
  import opened Wrappers
  import opened Text
  import opened Machine
  import opened OptionMaps

  datatype Row = Row(key: Bytes, value: Bytes)

  /** What the native iterator yields. */
  datatype Item = Entry(row: Row) | Failure(reason: string)

  datatype Status = More | EndOfIterator

  datatype TakeResult = Page(rows: seq<Row>, status: Status) | NativeError(reason: string)

  datatype TakeReply = Taken(result: TakeResult) | RejectedOptions(error: OptionError)

  datatype NextReply = NextRow(row: Row) | NoMoreRows | NextFailed(reason: string)

  function RowSize(r: Row): nat {
    |r.key| + |r.value|
  }

  function Size(rows: seq<Row>): nat {
    if rows == [] then 0 else Size(rows[..|rows| - 1]) + RowSize(rows[|rows| - 1])
  }

  function Entries(rows: seq<Row>): seq<Item> {
    seq(|rows|, i requires 0 <= i < |rows| => Item.Entry(rows[i]))
  }

  // ---------- one page ----------

  /** The page that taking rows off `s` completes when `rows` have been collected, and what is left. */
  function TakeFrom(s: seq<Item>, rows: seq<Row>, o: TakeOptions): (TakeResult, seq<Item>)
  {
    if |rows| >= o.maxEntries then (Page(rows, More), s)
    else if s == [] then (Page(rows, EndOfIterator), [])
    else
      match s[0]
      case Failure(reason) => (NativeError(reason), s[1..])
      case Entry(row) =>
        var size := Size(rows) + RowSize(row);
        if rows != [] && o.maxBytes.Some? && size > o.maxBytes.value then (Page(rows, More), s)
        else if o.maxBytes.Some? && size >= o.maxBytes.value then (Page(rows + [row], More), s[1..])
        else TakeFrom(s[1..], rows + [row], o)
  }

  function Take(s: seq<Item>, o: TakeOptions): (TakeResult, seq<Item>) {
    TakeFrom(s, [], o)
  }

  lemma TakeFromEnds(s: seq<Item>, rows: seq<Row>, o: TakeOptions)
    ensures |rows| >= o.maxEntries ==> TakeFrom(s, rows, o) == (Page(rows, More), s)
    ensures |rows| < o.maxEntries && s == [] ==> TakeFrom(s, rows, o) == (Page(rows, EndOfIterator), [])
    ensures |rows| < o.maxEntries && s != [] && s[0].Failure? ==>
              TakeFrom(s, rows, o) == (NativeError(s[0].reason), s[1..])
    ensures SaturatingAddUsize(Size([]), 0) == 0
  {
  }

  /** Sums that stick at the largest `usize` decide every bound as exact ones do. */
  lemma SaturatingSumsDecide(s: seq<Item>, rows: seq<Row>, payload: nat, o: TakeOptions)
    requires WithinBounds(o) && |rows| < o.maxEntries && s != [] && s[0].Entry?
    requires payload == SaturatingAddUsize(Size(rows), 0)
    ensures var row := s[0].row;
            var next := SaturatingAddUsize(payload, SaturatingAddUsize(|row.key|, |row.value|));
            && next == SaturatingAddUsize(Size(rows + [row]), 0)
            && TakeFrom(s, rows, o) ==
                 if rows != [] && o.maxBytes.Some? && next > o.maxBytes.value then (Page(rows, More), s)
                 else if o.maxBytes.Some? && next >= o.maxBytes.value then (Page(rows + [row], More), s[1..])
                 else TakeFrom(s[1..], rows + [row], o)
  {
    var more := rows + [s[0].row];
    assert more[..|rows|] == rows;
    assert Size(more) == Size(rows) + RowSize(s[0].row);
    hide Size;
  }

  class IteratorState {
    var unread: seq<Item>       // what the native iterator has yet to yield
    var pending: Option<Row>    // one row read but not handed out

    /** All rows the iterator will still hand out. */
    ghost function Stream(): seq<Item>
      reads this
    {
      (if pending.Some? then [Item.Entry(pending.value)] else []) + unread
    }

    constructor (native: seq<Item>)
      ensures Stream() == native
    {
      unread := native;
      pending := None;
    }

    /** The native iterator: exhaustion is sticky. */
    method NativeNext() returns (item: Option<Item>)
      modifies this`unread
      ensures old(unread) == [] ==> item == None && unread == []
      ensures old(unread) != [] ==> item == Some(old(unread)[0]) && unread == old(unread)[1..]
    {
      if unread == [] {
        return None;
      }
      item := Some(unread[0]);
      unread := unread[1..];
    }

    /** `pending` first, then the native iterator. */
    method Advance() returns (item: Option<Item>)
      modifies this
      ensures pending == None
      ensures old(Stream()) == [] ==> item == None && Stream() == []
      ensures old(Stream()) != [] ==> item == Some(old(Stream())[0]) && Stream() == old(Stream())[1..]
    {
      if pending.Some? {
        item := Some(Item.Entry(pending.value));
        pending := None;
      } else {
        item := NativeNext();
      }
    }

    method Next() returns (reply: NextReply)
      modifies this
      ensures (if reply.NextRow? then [reply.row] else [], Stream()) == Perform(old(Stream()), NextCall)
      ensures old(Stream()) == [] ==> reply == NoMoreRows && Stream() == []
      ensures old(Stream()) != [] ==>
                && Stream() == old(Stream())[1..]
                && reply == match old(Stream())[0] { case Entry(r) => NextRow(r) case Failure(e) => NextFailed(e) }
    {
      var item := Advance();
      match item
      case None => return NoMoreRows;
      case Some(Entry(row)) => return NextRow(row);
      case Some(Failure(reason)) => return NextFailed(reason);
    }

    method IteratorTake(term: Option<seq<OptionMaps.Entry>>) returns (reply: TakeReply)
      modifies this
      ensures reply.RejectedOptions? ==> Stream() == old(Stream()) && RefusesTake(term, reply.error)
      ensures reply.Taken? <==> TakeOptionsAccepted(term)
      ensures reply.Taken? ==>
                && Lookup(term.value, "max_entries").Some? && Lookup(term.value, "max_entries").value.Integer?
                && Lookup(term.value, "max_entries").value.number >= 0
                && var o := TakeOptions(Lookup(term.value, "max_entries").value.number,
                                        Number(Lookup(term.value, "max_bytes")));
                && WithinBounds(o) && (reply.result, Stream()) == Take(old(Stream()), o)
                && (if reply.result.Page? then reply.result.rows else [], Stream())
                   == Perform(old(Stream()), TakeCall(o))
    {
      var decoded := DecodeTakeOptions(term);
      if decoded.Err? {
        return RejectedOptions(decoded.error);
      }
      var result := TakePage(decoded.value);
      return Taken(result);
    }

    method TakePage(o: TakeOptions) returns (result: TakeResult)
      requires WithinBounds(o)
      modifies this
      ensures (result, Stream()) == Take(old(Stream()), o)
    {
      hide Size, RowSize, SaturatingAddUsize, TakeFrom;
      var rows: seq<Row> := [];
      var payloadBytes := 0;
      var exhausted := false;
      ghost var start := Stream();
      TakeFromEnds(start, rows, o);
      while |rows| < o.maxEntries && !exhausted
        invariant payloadBytes == SaturatingAddUsize(Size(rows), 0)
        invariant !exhausted ==> TakeFrom(Stream(), rows, o) == Take(start, o)
        invariant exhausted ==> Take(start, o) == (Page(rows, EndOfIterator), Stream())
        decreases o.maxEntries - |rows|, !exhausted
      {
        ghost var before := Stream();
        TakeFromEnds(before, rows, o);
        var item := Advance();
        match item
        case None =>
          exhausted := true;
        case Some(Failure(reason)) =>
          return NativeError(reason);
        case Some(Entry(row)) =>
          SaturatingSumsDecide(before, rows, payloadBytes, o);
          var entryBytes := SaturatingAddUsize(|row.key|, |row.value|);
          var nextPayload := SaturatingAddUsize(payloadBytes, entryBytes);
          if rows != [] && o.maxBytes.Some? && nextPayload > o.maxBytes.value {
            pending := Some(row);
            assert Stream() == before;
            return Page(rows, More);
          }
          rows := rows + [row];
          payloadBytes := nextPayload;
          if o.maxBytes.Some? && payloadBytes >= o.maxBytes.value {
            return Page(rows, More);
          }
      }
      TakeFromEnds(Stream(), rows, o);
      return Page(rows, if exhausted then EndOfIterator else More);
    }
  }

  // ---------- what a page is ----------

  /** No later row may join these: the entry bound or the byte bound has been reached. */
  predicate Full(rows: seq<Row>, o: TakeOptions) {
    |rows| >= o.maxEntries || (rows != [] && o.maxBytes.Some? && Size(rows) >= o.maxBytes.value)
  }

  predicate WithinBytes(rows: seq<Row>, o: TakeOptions) {
    o.maxBytes.Some? ==> |rows| <= 1 || Size(rows) <= o.maxBytes.value
  }

  /** Within both bounds, and no row was added to a page that was already full. */
  predicate Legal(rows: seq<Row>, o: TakeOptions) {
    && |rows| <= o.maxEntries
    && WithinBytes(rows, o)
    && (rows != [] ==> !Full(rows[..|rows| - 1], o))
  }

  /** `rows` is a page of `s`, and no more of `s` could have joined it. */
  ghost predicate IsLongestPage(s: seq<Item>, rows: seq<Row>, rest: seq<Item>, o: TakeOptions) {
    && s == Entries(rows) + rest
    && Legal(rows, o)
    && (rest != [] && rest[0].Entry? ==> !Legal(rows + [rest[0].row], o))
  }

  /**
  `More` means that the page is not empty and that a bound stopped it;
  `EndOfIterator` means that nothing is left and no bound was reached. A native
  error hides the rows collected before it, and only those.
  */
  ghost predicate ReturnsLongestPage(s: seq<Item>, result: TakeResult, rest: seq<Item>, o: TakeOptions) {
    match result
    case Page(rows, More) =>
      && IsLongestPage(s, rows, rest, o)
      && rows != []
      && (Full(rows, o) || (rest != [] && rest[0].Entry?))
    case Page(rows, EndOfIterator) =>
      rest == [] && s == Entries(rows) && Legal(rows, o) && !Full(rows, o)
    case NativeError(reason) =>
      exists rows :: s == Entries(rows) + [Failure(reason)] + rest && Legal(rows, o) && !Full(rows, o)
  }

  /** A page is the longest legal one, and its status says what ended it. */
  lemma TakeIsLongestLegalPage(s: seq<Item>, o: TakeOptions)
    requires WithinBounds(o)
    ensures ReturnsLongestPage(s, Take(s, o).0, Take(s, o).1, o)
  {
    assert s == Entries([]) + s;
    TakeFromIsLongestLegalPage(s, s, [], o);
  }

  lemma {:induction false} TakeFromIsLongestLegalPage(whole: seq<Item>, s: seq<Item>, rows: seq<Row>, o: TakeOptions)
    requires WithinBounds(o) && whole == Entries(rows) + s && Legal(rows, o)
    requires |rows| < o.maxEntries ==> !Full(rows, o)
    ensures ReturnsLongestPage(whole, TakeFrom(s, rows, o).0, TakeFrom(s, rows, o).1, o)
    decreases |s|
  {
    hide Legal, Size, Entries;
    if |rows| >= o.maxEntries {
      FullStaysFull(rows, o);
    } else if s == [] {
      assert whole == Entries(rows);
    } else if s[0].Failure? {
      assert whole == Entries(rows) + [s[0]] + s[1..];
    } else {
      var row := s[0].row;
      var more, size := rows + [row], Size(rows) + RowSize(row);
      OneMoreRow(rows, row, s, o);
      if rows != [] && o.maxBytes.Some? && size > o.maxBytes.value {
      } else if o.maxBytes.Some? && size >= o.maxBytes.value {
        FullStaysFull(more, o);
      } else {
        TakeFromIsLongestLegalPage(whole, s[1..], more, o);
      }
    }
  }

  /** A page that is not full may take another row if that fits, or if it is the first. */
  lemma OneMoreRow(rows: seq<Row>, row: Row, s: seq<Item>, o: TakeOptions)
    requires Legal(rows, o) && !Full(rows, o) && s != [] && s[0] == Item.Entry(row)
    ensures var more, size := rows + [row], Size(rows) + RowSize(row);
            && Entries(rows) + s == Entries(more) + s[1..]
            && (Legal(more, o) <==> rows == [] || o.maxBytes.None? || size <= o.maxBytes.value)
            && (Full(more, o) <==> |more| >= o.maxEntries || (o.maxBytes.Some? && size >= o.maxBytes.value))
  {
    var more := rows + [row];
    assert more[..|rows|] == rows;
    assert Size(more) == Size(rows) + RowSize(row);
    hide Size;
    assert Entries(rows) + s == Entries(more) + s[1..];
  }

  lemma FullStaysFull(rows: seq<Row>, o: TakeOptions)
    requires Full(rows, o)
    ensures forall row :: !Legal(rows + [row], o)
  {
    forall row ensures !Legal(rows + [row], o) {
      assert (rows + [row])[..|rows|] == rows;
    }
  }

  // ---------- every row exactly once ----------

  datatype Call = TakeCall(options: TakeOptions) | NextCall

  ghost predicate ErrorFree(s: seq<Item>) {
    forall i :: 0 <= i < |s| ==> s[i].Entry?
  }

  /** The rows one call returns, and what is left. */
  function Perform(s: seq<Item>, c: Call): (seq<Row>, seq<Item>) {
    match c
    case NextCall => if s != [] && s[0].Entry? then ([s[0].row], s[1..]) else ([], if s == [] then [] else s[1..])
    case TakeCall(o) =>
      match Take(s, o)
      case (Page(rows, _), rest) => (rows, rest)
      case (NativeError(_), rest) => ([], rest)
  }

  /** The rows that a run of calls returns, in order, and what is left. */
  function PerformAll(s: seq<Item>, calls: seq<Call>): (seq<Row>, seq<Item>)
    decreases |calls|
  {
    if calls == [] then ([], s)
    else
      var (rows, rest) := Perform(s, calls[0]);
      var (later, left) := PerformAll(rest, calls[1..]);
      (rows + later, left)
  }

  lemma ErrorFreeTakeIsPage(s: seq<Item>, o: TakeOptions)
    requires WithinBounds(o) && ErrorFree(s)
    ensures Take(s, o).0.Page?
  {
    TakeIsLongestLegalPage(s, o);
    if Take(s, o).0.NativeError? {
      var rows :| s == Entries(rows) + [Failure(Take(s, o).0.reason)] + Take(s, o).1;
      FailureIsAnError(rows, Take(s, o).0.reason, Take(s, o).1);
    }
  }

  lemma FailureIsAnError(rows: seq<Row>, reason: string, rest: seq<Item>)
    ensures !ErrorFree(Entries(rows) + [Failure(reason)] + rest)
  {
    var s := Entries(rows) + [Failure(reason)] + rest;
    assert s[|rows|] == Failure(reason);
  }

  lemma CallReturnsFront(s: seq<Item>, c: Call)
    requires ErrorFree(s) && (c.TakeCall? ==> WithinBounds(c.options))
    ensures Entries(Perform(s, c).0) + Perform(s, c).1 == s
  {
    hide Legal, Full;
    if c.TakeCall? {
      ErrorFreeTakeIsPage(s, c.options);
      TakeIsLongestLegalPage(s, c.options);
    } else if s != [] {
      assert s == Entries([s[0].row]) + s[1..];
    }
  }

  /** Whatever the calls and their options, the returned rows and the unread rows are the original rows. */
  lemma {:induction false} EveryRowExactlyOnce(s: seq<Item>, calls: seq<Call>)
    requires ErrorFree(s) && forall c :: c in calls && c.TakeCall? ==> WithinBounds(c.options)
    ensures Entries(PerformAll(s, calls).0) + PerformAll(s, calls).1 == s
    decreases |calls|
  {
    hide Perform;
    if calls != [] {
      CallReturnsFront(s, calls[0]);
      var (rows, rest) := Perform(s, calls[0]);
      assert s == Entries(rows) + rest;
      assert ErrorFree(rest) by {
        assert forall i :: 0 <= i < |rest| ==> rest[i] == s[|rows| + i];
      }
      EveryRowExactlyOnce(rest, calls[1..]);
      var (later, left) := PerformAll(rest, calls[1..]);
      assert Entries(rows + later) == Entries(rows) + Entries(later);
    }
  }

  // ---------- draining an iterator ----------

  /** The number of rows on the next page. */
  function PageLength(rows: seq<Row>, o: TakeOptions): (n: nat)
    requires WithinBounds(o)
    ensures n <= |rows| && (rows != [] ==> n > 0)
    ensures Legal(rows[..n], o) && (n < |rows| ==> !Legal(rows[..n + 1], o))
  {
    PageOfRows(rows, o);
    |Take(Entries(rows), o).0.rows|
  }

  lemma EntriesSplit(rows: seq<Row>, front: seq<Row>, rest: seq<Item>)
    requires Entries(rows) == Entries(front) + rest
    ensures var n := |front|; n <= |rows| && front == rows[..n] && rest == Entries(rows[n..])
    ensures |front| < |rows| ==> rest != [] && rest[0] == Item.Entry(rows[|front|])
    ensures rest == [] <==> |front| == |rows|
  {
    var s := Entries(rows);
    assert |s| == |front| + |rest|;
    forall i | 0 <= i < |front| ensures front[i] == rows[i] {
      assert s[i] == Entries(front)[i];
    }
    forall i | 0 <= i < |rest| ensures rest[i] == Item.Entry(rows[|front| + i]) {
      assert s[|front| + i] == rest[i];
    }
  }

  lemma PageOfRows(rows: seq<Row>, o: TakeOptions)
    requires WithinBounds(o)
    ensures var (result, rest) := Take(Entries(rows), o);
            && result.Page?
            && var n := |result.rows|;
            && n <= |rows| && (rows != [] ==> n > 0)
            && result.rows == rows[..n] && rest == Entries(rows[n..])
            && Legal(rows[..n], o) && (n < |rows| ==> !Legal(rows[..n + 1], o))
            && (result.status.EndOfIterator? <==> n == |rows| && !Full(rows, o))
  {
    hide Legal, Full, Take;
    var s := Entries(rows);
    ErrorFreeTakeIsPage(s, o);
    TakeIsLongestLegalPage(s, o);
    var (result, rest) := Take(s, o);
    var n := |result.rows|;
    EntriesSplit(rows, result.rows, rest);
    hide Entries;
    if n < |rows| {
      assert rows[..n + 1] == result.rows + [rows[n]];
    } else {
      assert rows[..n] == rows;
    }
  }

  /** The pages of repeated `iterator_take` calls, up to the one that reports the end. */
  function Drain(rows: seq<Row>, o: TakeOptions): seq<seq<Row>>
    requires WithinBounds(o)
    decreases |rows|
  {
    var n := PageLength(rows, o);
    if n == |rows| && !Full(rows, o) then [rows] else [rows[..n]] + Drain(rows[n..], o)
  }

  function Flatten(pages: seq<seq<Row>>): seq<Row> {
    if pages == [] then [] else pages[0] + Flatten(pages[1..])
  }

  function NonEmptyPages(pages: seq<seq<Row>>): seq<seq<Row>> {
    if pages == [] then [] else (if pages[0] == [] then [] else [pages[0]]) + NonEmptyPages(pages[1..])
  }

  /** Each page of a drain is what the next call returns, and the last is the one that reports the end. */
  lemma DrainFollowsTakes(rows: seq<Row>, o: TakeOptions)
    requires WithinBounds(o)
    ensures var pages, (result, rest) := Drain(rows, o), Take(Entries(rows), o);
            && pages != []
            && result == Page(pages[0], if |pages| == 1 then EndOfIterator else More)
            && |pages[0]| <= |rows| && rest == Entries(rows[|pages[0]|..])
            && (|pages| > 1 ==> pages[1..] == Drain(rows[|pages[0]|..], o))
  {
    PageOfRows(rows, o);
    hide Legal, Full, Take, Entries;
    var n := PageLength(rows, o);
    assert n == |rows| ==> rows[..n] == rows;
  }

  /** A drain hands out every row, on legal pages, within one call more than there are rows. */
  lemma {:induction false} DrainIsCompleteAndShort(rows: seq<Row>, o: TakeOptions)
    requires WithinBounds(o)
    ensures Flatten(Drain(rows, o)) == rows
    ensures |Drain(rows, o)| <= |rows| + 1
    ensures forall page :: page in Drain(rows, o) ==> Legal(page, o)
    decreases |rows|
  {
    var n := PageLength(rows, o);
    if n == |rows| && !Full(rows, o) {
      assert rows[..n] == rows;
      assert Drain(rows, o)[1..] == [];
    } else {
      DrainIsCompleteAndShort(rows[n..], o);
      assert Drain(rows, o)[1..] == Drain(rows[n..], o);
      assert rows == rows[..n] + rows[n..];
    }
  }

  // ---------- no split uses fewer pages ----------

  lemma {:induction false} SizeAppend(a: seq<Row>, b: seq<Row>)
    ensures Size(a + b) == Size(a) + Size(b)
  {
    if b == [] {
      assert a + b == a;
    } else {
      assert (a + b)[..|a + b| - 1] == a + b[..|b| - 1];
      SizeAppend(a, b[..|b| - 1]);
    }
  }

  lemma SliceIsSmaller(rows: seq<Row>, from: nat, to: nat)
    requires from <= to <= |rows|
    ensures Size(rows[from..to]) <= Size(rows)
  {
    hide Size;
    assert rows == rows[..to] + rows[to..];
    SizeAppend(rows[..to], rows[to..]);
    assert rows[..to] == rows[..from] + rows[from..to];
    SizeAppend(rows[..from], rows[from..to]);
  }

  lemma SliceOfSlice(rows: seq<Row>, from: nat, to: nat)
    requires from <= to <= |rows|
    ensures rows[..to][from..to] == rows[from..to] == rows[from..][..to - from]
    ensures rows[from..][to - from..] == rows[to..]
  {
  }

  lemma SliceOfLegalIsLegal(rows: seq<Row>, from: nat, to: nat, o: TakeOptions)
    requires from <= to <= |rows| && Legal(rows, o)
    ensures Legal(rows[from..to], o)
  {
    hide Size, Legal;
    var part := rows[from..to];
    SliceIsSmaller(rows, from, to);
    if part != [] {
      var front := rows[..|rows| - 1];
      SliceIsSmaller(front, from, to - 1);
      assert part[..|part| - 1] == front[from..to - 1];
    }
    SmallerIsLegal(rows, part, o);
  }

  lemma SmallerIsLegal(rows: seq<Row>, part: seq<Row>, o: TakeOptions)
    requires Legal(rows, o) && |part| <= |rows| && Size(part) <= Size(rows)
    requires part != [] ==> Size(part[..|part| - 1]) <= Size(rows[..|rows| - 1])
    ensures Legal(part, o)
  {
    hide Size;
  }

  // ---------- greedy pages under any rule ----------

  /** Which rows may be a page together. */
  type PageRule = seq<Row> -> bool

  /** Every single row may be a page, and so may every part of a page. */
  ghost predicate SliceClosed(ok: PageRule) {
    && ok([]) && (forall row :: ok([row]))
    && forall rows, from: nat, to: nat :: from <= to <= |rows| && ok(rows) ==> ok(rows[from..to])
  }

  ghost function LongestFrom(rows: seq<Row>, ok: PageRule, n: nat): (m: nat)
    requires n <= |rows| && ok(rows[..n])
    ensures n <= m <= |rows| && ok(rows[..m]) && (m < |rows| ==> !ok(rows[..m + 1]))
    decreases |rows| - n
  {
    if n < |rows| && ok(rows[..n + 1]) then LongestFrom(rows, ok, n + 1) else n
  }

  /** The longest front of the rows that may be a page. */
  ghost function Longest(rows: seq<Row>, ok: PageRule): (n: nat)
    requires SliceClosed(ok)
    ensures n <= |rows| && (rows != [] ==> n > 0)
    ensures ok(rows[..n]) && (n < |rows| ==> !ok(rows[..n + 1]))
  {
    if rows == [] then
      assert rows[..0] == [];
      0
    else
      assert rows[..1] == [rows[0]];
      LongestFrom(rows, ok, 1)
  }

  ghost function GreedyPages(rows: seq<Row>, ok: PageRule): seq<seq<Row>>
    requires SliceClosed(ok)
    decreases |rows|
  {
    if rows == [] then []
    else
      var n := Longest(rows, ok);
      [rows[..n]] + GreedyPages(rows[n..], ok)
  }

  lemma FrontIsNoLonger(rows: seq<Row>, ok: PageRule, k: nat)
    requires SliceClosed(ok) && k <= |rows| && ok(rows[..k])
    ensures k <= Longest(rows, ok)
  {
    var n := Longest(rows, ok);
    FrontOfFront(rows, ok, k, if n < k then n + 1 else k);
  }

  lemma FrontOfFront(rows: seq<Row>, ok: PageRule, k: nat, n: nat)
    requires SliceClosed(ok) && n <= k <= |rows| && ok(rows[..k])
    ensures ok(rows[..n])
  {
    assert rows[..k][0..n] == rows[..n];
  }

  lemma {:induction false} GreedyPagesAreAllowed(rows: seq<Row>, ok: PageRule)
    requires SliceClosed(ok)
    ensures Flatten(GreedyPages(rows, ok)) == rows
    ensures forall page :: page in GreedyPages(rows, ok) ==> ok(page)
    decreases |rows|
  {
    if rows != [] {
      var n := Longest(rows, ok);
      GreedyPagesAreAllowed(rows[n..], ok);
      assert GreedyPages(rows, ok)[1..] == GreedyPages(rows[n..], ok);
      assert rows == rows[..n] + rows[n..];
    }
  }

  /** Greedy pages stay ahead: dropping rows from the front never costs a page. */
  lemma {:induction false} PagesOfSuffix(rows: seq<Row>, ok: PageRule, k: nat)
    requires SliceClosed(ok) && k <= |rows|
    ensures |GreedyPages(rows[k..], ok)| <= |GreedyPages(rows, ok)|
    decreases |rows|
  {
    hide Longest;
    if k == 0 {
      assert rows[k..] == rows;
    } else {
      var n := Longest(rows, ok);
      var suffix := rows[k..];
      if n <= k {
        PagesOfSuffix(rows[n..], ok, k - n);
        SliceOfSlice(rows, n, k);
      } else {
        assert ok(rows[..n][k..n]);
        SliceOfSlice(rows, k, n);
        FrontIsNoLonger(suffix, ok, n - k);
        var m := Longest(suffix, ok);
        PagesOfSuffix(rows[n..], ok, m - (n - k));
        SliceOfSlice(rows, n, k + m);
        SliceOfSlice(rows, k, k + m);
      }
    }
  }

  lemma {:induction false} GreedyUsesFewestPages(rows: seq<Row>, ok: PageRule, split: seq<seq<Row>>)
    requires SliceClosed(ok) && Flatten(split) == rows && forall page :: page in split ==> ok(page)
    ensures |GreedyPages(rows, ok)| <= |split|
    decreases |split|
  {
    hide Longest, SliceClosed;
    if split != [] && rows != [] {
      var k := |split[0]|;
      var rest := rows[k..];
      assert rest == Flatten(split[1..]) && rows[..k] == split[0];
      GreedyUsesFewestPages(rest, ok, split[1..]);
      FrontIsNoLonger(rows, ok, k);
      var n := Longest(rows, ok);
      PagesOfSuffix(rest, ok, n - k);
      SliceOfSlice(rows, k, n);
    }
  }

  /** One more row joins the last page if it may, and is a page of its own otherwise. */
  lemma {:induction false} PagesOfOneMore(rows: seq<Row>, row: Row, ok: PageRule)
    requires SliceClosed(ok) && rows != []
    ensures var pages := GreedyPages(rows, ok);
            && pages != []
            && GreedyPages(rows + [row], ok)
               == if ok(pages[|pages| - 1] + [row]) then pages[..|pages| - 1] + [pages[|pages| - 1] + [row]]
                  else pages + [[row]]
    decreases |rows|
  {
    var n, whole := Longest(rows, ok), rows + [row];
    assert whole[..n] == rows[..n];
    if n < |rows| {
      assert whole[..n + 1] == rows[..n + 1];
      LongestIs(whole, ok, n);
      PagesOfOneMore(rows[n..], row, ok);
      assert whole[n..] == rows[n..] + [row];
    } else {
      assert rows[..n] == rows && rows[n..] == [] && whole[..n + 1] == whole;
      if ok(whole) {
        LongestIs(whole, ok, n + 1);
        assert whole[n + 1..] == [];
      } else {
        LongestIs(whole, ok, n);
        assert whole[n..] == [row] && [row][..1] == [row] && [row][1..] == [];
        LongestIs([row], ok, 1);
      }
    }
  }

  lemma OneRowIsOnePage(row: Row, ok: PageRule)
    requires SliceClosed(ok)
    ensures GreedyPages([row], ok) == [[row]]
  {
    var rows := [row];
    assert rows[..1] == rows && rows[1..] == [];
    LongestIs(rows, ok, 1);
  }

  lemma LongestIs(rows: seq<Row>, ok: PageRule, n: nat)
    requires SliceClosed(ok) && n <= |rows| && ok(rows[..n]) && (n < |rows| ==> !ok(rows[..n + 1]))
    ensures Longest(rows, ok) == n
  {
    var m := Longest(rows, ok);
    FrontIsNoLonger(rows, ok, n);
    FrontOfFront(rows, ok, m, if n < m then n + 1 else m);
  }

  /** Rules that agree on the parts of some rows make the same pages of them. */
  lemma {:induction false} AgreeingRulesMakeSamePages(rows: seq<Row>, ok: PageRule, ok': PageRule)
    requires SliceClosed(ok) && SliceClosed(ok')
    requires forall from: nat, to: nat :: from <= to <= |rows| ==> ok(rows[from..to]) == ok'(rows[from..to])
    ensures GreedyPages(rows, ok) == GreedyPages(rows, ok')
    decreases |rows|
  {
    if rows != [] {
      var n := Longest(rows, ok);
      assert rows[0..n] == rows[..n] && (n < |rows| ==> rows[0..n + 1] == rows[..n + 1]);
      LongestIs(rows, ok', n);
      var rest := rows[n..];
      forall from: nat, to: nat | from <= to <= |rest| ensures ok(rest[from..to]) == ok'(rest[from..to]) {
        assert rest[from..to] == rows[n + from..n + to];
      }
      AgreeingRulesMakeSamePages(rest, ok, ok');
    }
  }

  // ---------- no split uses fewer pages than a drain ----------

  predicate Fits(rows: seq<Row>, o: TakeOptions) {
    |rows| <= o.maxEntries && WithinBytes(rows, o)
  }

  ghost function LegalRule(o: TakeOptions): PageRule {
    (rows: seq<Row>) => Legal(rows, o)
  }

  ghost function FitRule(o: TakeOptions): PageRule {
    (rows: seq<Row>) => Fits(rows, o)
  }

  lemma RulesAreSliceClosed(o: TakeOptions)
    requires WithinBounds(o)
    ensures SliceClosed(LegalRule(o)) && SliceClosed(FitRule(o))
  {
    forall row ensures Legal([row], o) {
      assert [row][..0] == [];
    }
    hide Size;
    forall rows, from: nat, to: nat | from <= to <= |rows| && Fits(rows, o) ensures Fits(rows[from..to], o) {
      SliceIsSmaller(rows, from, to);
    }
    forall rows, from: nat, to: nat | from <= to <= |rows| && Legal(rows, o) ensures Legal(rows[from..to], o) {
      SliceOfLegalIsLegal(rows, from, to, o);
    }
  }

  /** The non-empty pages of a drain are the greedy ones. */
  lemma {:induction false} DrainIsGreedy(rows: seq<Row>, o: TakeOptions)
    requires WithinBounds(o)
    ensures SliceClosed(LegalRule(o)) && NonEmptyPages(Drain(rows, o)) == GreedyPages(rows, LegalRule(o))
    decreases |rows|
  {
    RulesAreSliceClosed(o);
    hide Legal, SliceClosed, Longest, Full;
    var n, pages := PageLength(rows, o), Drain(rows, o);
    LongestIs(rows, LegalRule(o), n);
    assert NonEmptyPages([]) == [];
    if n == |rows| && !Full(rows, o) {
      assert pages[1..] == [] && rows[n..] == [] && rows[..n] == rows;
    } else {
      assert rows != [] by {
        EmptyIsNotFull(o);
      }
      DrainIsGreedy(rows[n..], o);
      assert pages[1..] == Drain(rows[n..], o);
    }
  }

  lemma EmptyIsNotFull(o: TakeOptions)
    requires WithinBounds(o)
    ensures !Full([], o)
  {
  }

  /** No in-order split of the rows into legal pages has fewer pages than the drain has non-empty ones. */
  lemma DrainUsesFewestPages(rows: seq<Row>, o: TakeOptions, split: seq<seq<Row>>)
    requires WithinBounds(o) && Flatten(split) == rows && forall page :: page in split ==> Legal(page, o)
    ensures |NonEmptyPages(Drain(rows, o))| <= |split|
  {
    DrainIsGreedy(rows, o);
    GreedyUsesFewestPages(rows, LegalRule(o), split);
  }

  /** No in-order split into pages that keep the two bounds has fewer pages. */
  ghost predicate DrainIsOptimal(rows: seq<Row>, o: TakeOptions)
    requires WithinBounds(o)
  {
    forall split :: Flatten(split) == rows && (forall page :: page in split ==> Fits(page, o)) ==>
      |NonEmptyPages(Drain(rows, o))| <= |split|
  }

  /** For any rows: exactly when filling pages up to the bounds alone would not save a page. */
  lemma DrainIsOptimalIff(rows: seq<Row>, o: TakeOptions)
    requires WithinBounds(o)
    ensures SliceClosed(FitRule(o))
    ensures DrainIsOptimal(rows, o) <==> |NonEmptyPages(Drain(rows, o))| <= |GreedyPages(rows, FitRule(o))|
  {
    RulesAreSliceClosed(o);
    hide SliceClosed, NonEmptyPages, Drain, Fits;
    GreedyPagesAreAllowed(rows, FitRule(o));
    forall split | Flatten(split) == rows && (forall page :: page in split ==> Fits(page, o))
      ensures |GreedyPages(rows, FitRule(o))| <= |split|
    {
      GreedyUsesFewestPages(rows, FitRule(o), split);
    }
  }

  /** At most the first row is empty. */
  ghost predicate PositiveAfterFirst(rows: seq<Row>) {
    forall i :: 1 <= i < |rows| ==> RowSize(rows[i]) > 0
  }

  lemma FittingIsLegal(rows: seq<Row>, o: TakeOptions)
    requires WithinBounds(o) && (|rows| > 1 ==> RowSize(rows[|rows| - 1]) > 0)
    ensures Fits(rows, o) <==> Legal(rows, o)
  {
  }

  lemma RulesMakeSamePages(rows: seq<Row>, o: TakeOptions)
    requires WithinBounds(o) && PositiveAfterFirst(rows)
    ensures SliceClosed(LegalRule(o)) && SliceClosed(FitRule(o))
    ensures GreedyPages(rows, LegalRule(o)) == GreedyPages(rows, FitRule(o))
  {
    RulesAreSliceClosed(o);
    hide SliceClosed, Fits, Legal, RowSize;
    forall from: nat, to: nat | from <= to <= |rows|
      ensures Legal(rows[from..to], o) == Fits(rows[from..to], o)
    {
      FittingIsLegal(rows[from..to], o);
    }
    AgreeingRulesMakeSamePages(rows, LegalRule(o), FitRule(o));
  }

  /** So it is for rows of positive size, and an empty row in front of them costs nothing either. */
  lemma DrainIsOptimalForPositiveRows(rows: seq<Row>, o: TakeOptions)
    requires WithinBounds(o) && PositiveAfterFirst(rows)
    ensures DrainIsOptimal(rows, o)
  {
    RulesMakeSamePages(rows, o);
    DrainIsGreedy(rows, o);
    DrainIsOptimalIff(rows, o);
  }

  const EMPTY_ROW := Row([], [])

  /** The last page of the rows has reached the byte bound exactly, and has room for another row. */
  ghost predicate LastPageIsExactlyFilled(rows: seq<Row>, o: TakeOptions)
    requires WithinBounds(o)
  {
    var pages := NonEmptyPages(Drain(rows, o));
    && pages != []
    && |pages[|pages| - 1]| < o.maxEntries && o.maxBytes == Some(Size(pages[|pages| - 1]))
  }

  /** An empty row behind the others costs a page exactly when the page before it is filled to the byte. */
  lemma EmptyRowAtEndIff(rows: seq<Row>, o: TakeOptions)
    requires WithinBounds(o) && PositiveAfterFirst(rows)
    ensures DrainIsOptimal(rows + [EMPTY_ROW], o) <==> !LastPageIsExactlyFilled(rows, o)
  {
    hide SliceClosed, Drain, NonEmptyPages, DrainIsOptimal, GreedyPages, Legal, Fits, Size, RowSize, Longest;
    RulesMakeSamePages(rows, o);
    DrainIsGreedy(rows, o);
    DrainIsOptimalIff(rows + [EMPTY_ROW], o);
    if rows == [] {
      assert rows + [EMPTY_ROW] == [EMPTY_ROW];
      DrainIsOptimalForPositiveRows([EMPTY_ROW], o);
      NothingMakesNoPages(LegalRule(o));
    } else {
      DrainIsGreedy(rows + [EMPTY_ROW], o);
      PagesOfOneMore(rows, EMPTY_ROW, LegalRule(o));
      PagesOfOneMore(rows, EMPTY_ROW, FitRule(o));
      GreedyPagesAreAllowed(rows, LegalRule(o));
      LastIsNotEmpty(rows, LegalRule(o));
      var pages := GreedyPages(rows, LegalRule(o));
      assert pages[|pages| - 1] in pages && LegalRule(o)(pages[|pages| - 1]);
      EmptyRowJoins(pages[|pages| - 1], o);
    }
  }

  lemma NothingMakesNoPages(ok: PageRule)
    requires SliceClosed(ok)
    ensures GreedyPages([], ok) == []
  {
  }

  lemma {:induction false} LastIsNotEmpty(rows: seq<Row>, ok: PageRule)
    requires SliceClosed(ok) && rows != []
    ensures var pages := GreedyPages(rows, ok); pages != [] && pages[|pages| - 1] != []
    decreases |rows|
  {
    var n := Longest(rows, ok);
    if n < |rows| {
      LastIsNotEmpty(rows[n..], ok);
    }
  }

  lemma EmptyRowJoins(page: seq<Row>, o: TakeOptions)
    requires WithinBounds(o) && page != [] && Legal(page, o)
    ensures Fits(page + [EMPTY_ROW], o) && !Legal(page + [EMPTY_ROW], o)
            <==> |page| < o.maxEntries && o.maxBytes == Some(Size(page))
    ensures Legal(page + [EMPTY_ROW], o) ==> Fits(page + [EMPTY_ROW], o)
  {
    assert (page + [EMPTY_ROW])[..|page|] == page;
    assert Size(page + [EMPTY_ROW]) == Size(page);
  }

  /** An empty row after a page that is exactly full costs a page of its own. */
  lemma EmptyRowCostsAPage(row: Row, o: TakeOptions)
    requires WithinBounds(o) && o.maxEntries >= 2 && o.maxBytes == Some(RowSize(row))
    ensures Fits([row, EMPTY_ROW], o) && NonEmptyPages(Drain([row, EMPTY_ROW], o)) == [[row], [EMPTY_ROW]]
  {
    var rows := [row];
    assert rows + [EMPTY_ROW] == [row, EMPTY_ROW];
    assert rows[..0] == [] && rows[..1] == rows && rows[1..] == [] && Size(rows) == RowSize(row);
    DrainIsGreedy(rows + [EMPTY_ROW], o);
    OneRowIsOnePage(row, LegalRule(o));
    hide SliceClosed, Drain, NonEmptyPages, GreedyPages, Size, RowSize;
    PagesOfOneMore(rows, EMPTY_ROW, LegalRule(o));
    EmptyRowJoins(rows, o);
  }
}
