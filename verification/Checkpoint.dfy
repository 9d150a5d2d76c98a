/**
The durable checkpoint protocol: a dirty marker, projection writes, a clean
marker and the source cursor, over a write-ahead log that a crash may cut
anywhere behind its synced part.
*/
module Checkpoint {
  import opened Wrappers
  import opened Text
  import opened OptionMaps
  import MergeStore
  import WriteBatches

  datatype Write = Write(key: string, value: string)

  type Batch = seq<Write>

  const STATE_KEY := "materialization/state"
  const CURSOR_KEY := "materialization/source_cursor"

  // ---------- the log ----------

  function Apply(view: map<string, string>, batch: Batch): map<string, string> {
    if batch == [] then view
    else Apply(view, batch[..|batch| - 1])[batch[|batch| - 1].key := batch[|batch| - 1].value]
  }

  /** What reopening the database makes of a log. */
  function Replay(log: seq<Batch>): map<string, string> {
    if log == [] then map[] else Apply(Replay(log[..|log| - 1]), log[|log| - 1])
  }

  // ---------- the log as the store keeps it ----------

  function PutOf(w: Write): WriteBatches.StoreWrite {
    MergeStore.Write((WriteBatches.DEFAULT_CF, ToUtf8(w.key)), MergeStore.Put(ToUtf8(w.value)))
  }

  function Puts(batch: Batch): seq<WriteBatches.StoreWrite> {
    seq(|batch|, i requires 0 <= i < |batch| => PutOf(batch[i]))
  }

  function StoreLog(log: seq<Batch>): seq<seq<WriteBatches.StoreWrite>> {
    seq(|log|, i requires 0 <= i < |log| => Puts(log[i]))
  }

  /** `{:put, key, value}` */
  function PutTerm(w: Write): Option<seq<WriteBatches.Argument>> {
    Some([WriteBatches.AtomArg("put"), WriteBatches.BinaryArg(ToUtf8(w.key)), WriteBatches.BinaryArg(ToUtf8(w.value))])
  }

  function PutTerms(batch: Batch): seq<Option<seq<WriteBatches.Argument>>> {
    seq(|batch|, i requires 0 <= i < |batch| => PutTerm(batch[i]))
  }

  lemma PutTermsParse(batch: Batch, families: set<string>)
    ensures WriteBatches.AllParse(PutTerms(batch), families)
    ensures WriteBatches.Parsed(PutTerms(batch), families) == Puts(batch)
  {
  }

  /** The store holds exactly the values of the view, and nothing waits to be merged. */
  ghost predicate Shows(cells: WriteBatches.Cells, view: map<string, string>) {
    forall key: string :: ShowsAt(cells, view, key)
  }

  ghost predicate ShowsAt(cells: WriteBatches.Cells, view: map<string, string>, key: string) {
    MergeStore.CellAt(cells, (WriteBatches.DEFAULT_CF, ToUtf8(key)))
    == MergeStore.Cell(if key in view then Some(ToUtf8(view[key])) else None, [])
  }

  lemma {:induction false} PutsShow(cells: WriteBatches.Cells, view: map<string, string>, batch: Batch)
    requires Shows(cells, view)
    ensures Shows(MergeStore.BatchLazily(cells, Puts(batch)), Apply(view, batch))
  {
    hide ToUtf8;
    if batch != [] {
      var n := |batch| - 1;
      PutsShow(cells, view, batch[..n]);
      assert Puts(batch)[..n] == Puts(batch[..n]);
      var before, earlier := MergeStore.BatchLazily(cells, Puts(batch[..n])), Apply(view, batch[..n]);
      forall key ensures ShowsAt(MergeStore.BatchLazily(cells, Puts(batch)), Apply(view, batch), key) {
        assert ShowsAt(before, earlier, key);
        Utf8RoundTrip(key);
        Utf8RoundTrip(batch[n].key);
      }
    }
  }

  /** Reopening the store on a log shows what the log replays to. */
  lemma {:induction false} ReopenedStoreShowsReplay(log: seq<Batch>)
    ensures Shows(WriteBatches.Replay(StoreLog(log)), Replay(log))
  {
    if log != [] {
      var n := |log| - 1;
      ReopenedStoreShowsReplay(log[..n]);
      assert StoreLog(log)[..n] == StoreLog(log[..n]);
      PutsShow(WriteBatches.Replay(StoreLog(log[..n])), Replay(log[..n]), log[n]);
    }
  }

  // ---------- the protocol's records ----------

  /** `Seed` is a checkpoint whose clean marker and cursor are written as one batch. */
  datatype Record =
    | Dirty(round: nat) | Clean(round: nat) | Cursor(round: nat) | Seed(round: nat)
    | Data(batch: Batch)

  function DirtyText(n: nat): string {
    "dirty:" + Decimal(n)
  }

  function CleanText(n: nat): string {
    "clean:" + Decimal(n)
  }

  function BatchOf(r: Record): Batch {
    match r
    case Dirty(n) => [Write(STATE_KEY, DirtyText(n))]
    case Clean(n) => [Write(STATE_KEY, CleanText(n))]
    case Cursor(n) => [Write(CURSOR_KEY, Decimal(n))]
    case Seed(n) => [Write(STATE_KEY, CleanText(n)), Write(CURSOR_KEY, Decimal(n))]
    case Data(batch) => batch
  }

  function Batches(records: seq<Record>): seq<Batch> {
    seq(|records|, i requires 0 <= i < |records| => BatchOf(records[i]))
  }

  ghost predicate IsProjection(batch: Batch) {
    forall w :: w in batch ==> w.key != STATE_KEY && w.key != CURSOR_KEY
  }

  ghost predicate OnlyProjections(records: seq<Record>) {
    forall i :: 0 <= i < |records| && records[i].Data? ==> IsProjection(records[i].batch)
  }

  /** The dirty or clean record that decides the recovered state marker. */
  function LastMarker(records: seq<Record>): (r: Option<Record>)
    ensures r.Some? ==> r.value.Dirty? || r.value.Clean?
  {
    if records == [] then None
    else
      var last := records[|records| - 1];
      if last.Dirty? || last.Clean? then Some(last)
      else if last.Seed? then Some(Clean(last.round))
      else LastMarker(records[..|records| - 1])
  }

  function LastCursor(records: seq<Record>): Option<nat> {
    if records == [] then None
    else
      var last := records[|records| - 1];
      if last.Cursor? || last.Seed? then Some(last.round) else LastCursor(records[..|records| - 1])
  }

  function LastClean(records: seq<Record>): Option<nat> {
    if records == [] then None
    else
      var last := records[|records| - 1];
      if last.Clean? || last.Seed? then Some(last.round) else LastClean(records[..|records| - 1])
  }

  lemma {:induction false} ApplyLeavesOtherKeys(view: map<string, string>, batch: Batch, key: string)
    requires forall w :: w in batch ==> w.key != key
    ensures key in Apply(view, batch) <==> key in view
    ensures key in view ==> Apply(view, batch)[key] == view[key]
  {
    if batch != [] {
      ApplyLeavesOtherKeys(view, batch[..|batch| - 1], key);
    }
  }

  lemma ApplyOne(view: map<string, string>, w: Write)
    ensures Apply(view, [w]) == view[w.key := w.value]
  {
    assert [w][..0] == [];
  }

  lemma ApplyTwo(view: map<string, string>, v: Write, w: Write)
    ensures Apply(view, [v, w]) == view[v.key := v.value][w.key := w.value]
  {
    ApplyOne(view, v);
    assert [v, w][..1] == [v];
  }

  /** The recovered marker and cursor are those of the last records of their kind. */
  lemma {:induction false} RecoveredKeys(records: seq<Record>)
    requires OnlyProjections(records)
    ensures var view := Replay(Batches(records));
            && (STATE_KEY in view <==> LastMarker(records).Some?)
            && (STATE_KEY in view ==> view[STATE_KEY] == BatchOf(LastMarker(records).value)[0].value)
            && (CURSOR_KEY in view <==> LastCursor(records).Some?)
            && (CURSOR_KEY in view ==> view[CURSOR_KEY] == Decimal(LastCursor(records).value))
  {
    if records != [] {
      var front, last := records[..|records| - 1], records[|records| - 1];
      RecoveredKeys(front);
      assert Batches(records)[..|records| - 1] == Batches(front);
      var view := Replay(Batches(front));
      if last.Data? {
        ApplyLeavesOtherKeys(view, last.batch, STATE_KEY);
        ApplyLeavesOtherKeys(view, last.batch, CURSOR_KEY);
      } else if last.Seed? {
        ApplyTwo(view, BatchOf(last)[0], BatchOf(last)[1]);
      } else {
        ApplyOne(view, BatchOf(last)[0]);
      }
    }
  }

  /** A marker text names its kind and its round. */
  lemma MarkersAreDistinct(a: Record, n: nat)
    requires (a.Dirty? || a.Clean?) && BatchOf(a)[0].value == CleanText(n)
    ensures a == Clean(n)
  {
    assert DirtyText(a.round)[0] != CleanText(n)[0];
    if a.Clean? {
      assert CleanText(a.round)[6..] == Decimal(a.round) && CleanText(n)[6..] == Decimal(n);
      DecimalIsInjective(a.round, n);
    }
  }

  // ---------- the protocol as a transition system ----------

  datatype Round = Round(number: nat, data: seq<Batch>)

  datatype Phase = Ready | Writing(round: Round) | Cleaned(number: nat)

  /** `finished` remembers the rounds whose clean marker has been written. */
  datatype System = System(log: seq<Record>, synced: nat, phase: Phase, finished: set<Round>)

  const EMPTY := System([], 0, Ready, {})

  datatype Step =
    | WriteDirty(round: nat)
    | WriteData(batch: Batch)
    | WriteClean
    | WriteCursor
    | WriteSeed(round: nat)
    | Crash(kept: nat)

  /** A round may have any number, also one that is behind the cursor; a crash keeps at least the synced part. */
  ghost predicate Enabled(s: System, step: Step) {
    match step
    case WriteDirty(_) => s.phase.Ready?
    case WriteSeed(_) => s.phase.Ready?
    case WriteData(batch) => s.phase.Writing? && IsProjection(batch)
    case WriteClean => s.phase.Writing?
    case WriteCursor => s.phase.Cleaned?
    case Crash(kept) => s.synced <= kept <= |s.log|
  }

  ghost function After(s: System, step: Step): System
    requires Enabled(s, step)
  {
    match step
    case WriteDirty(n) =>
      System(s.log + [Dirty(n)], |s.log| + 1, Writing(Round(n, [])), s.finished)
    case WriteData(batch) =>
      System(s.log + [Data(batch)], s.synced,
             Writing(Round(s.phase.round.number, s.phase.round.data + [batch])), s.finished)
    case WriteClean =>
      var round := s.phase.round;
      System(s.log + [Clean(round.number)], |s.log| + 1, Cleaned(round.number), s.finished + {round})
    case WriteCursor =>
      System(s.log + [Cursor(s.phase.number)], |s.log| + 1, Ready, s.finished)
    case WriteSeed(n) =>
      System(s.log + [Seed(n)], |s.log| + 1, Ready, s.finished + {Round(n, [])})
    case Crash(kept) =>
      System(s.log[..kept], kept, Ready, s.finished)
  }

  ghost predicate CanRun(s: System, steps: seq<Step>)
    decreases |steps|
  {
    steps != [] ==> Enabled(s, steps[0]) && CanRun(After(s, steps[0]), steps[1..])
  }

  ghost function Run(s: System, steps: seq<Step>): System
    requires CanRun(s, steps)
    decreases |steps|
  {
    if steps == [] then s else Run(After(s, steps[0]), steps[1..])
  }

  function DataRecords(data: seq<Batch>): seq<Record> {
    seq(|data|, i requires 0 <= i < |data| => Data(data[i]))
  }

  function Begun(round: Round): seq<Record> {
    [Dirty(round.number)] + DataRecords(round.data)
  }

  function Complete(round: Round): seq<Record> {
    Begun(round) + [Clean(round.number)]
  }

  ghost predicate EndsWith(records: seq<Record>, suffix: seq<Record>) {
    |suffix| <= |records| && records[|records| - |suffix|..] == suffix
  }

  /** The round is the last thing in the log, with or without its cursor. */
  ghost predicate EndsWithRound(records: seq<Record>, round: Round) {
    || EndsWith(records, Complete(round))
    || EndsWith(records, Complete(round) + [Cursor(round.number)])
    || (round.data == [] && EndsWith(records, [Seed(round.number)]))
  }

  /** What holds of every log that a crash may leave. */
  ghost predicate Sound(records: seq<Record>, finished: set<Round>) {
    LastMarker(records).Some? && LastMarker(records).value.Clean? ==>
      exists round :: round in finished && LastMarker(records).value == Clean(round.number)
                      && EndsWithRound(records, round)
  }

  /** A cursor is only ever written right behind the clean marker of its round. */
  ghost predicate CursorsFollowCleans(records: seq<Record>) {
    forall i :: 0 <= i < |records| && records[i].Cursor? ==> i > 0 && records[i - 1] == Clean(records[i].round)
  }

  ghost predicate Inv(s: System) {
    && s.synced <= |s.log|
    && OnlyProjections(s.log)
    && CursorsFollowCleans(s.log)
    && (forall k :: 0 <= k <= |s.log| ==> Sound(s.log[..k], s.finished))
    && match s.phase
       case Ready => true
       case Writing(round) =>
         && EndsWith(s.log, Begun(round))
         && |s.log| - |round.data| <= s.synced
       case Cleaned(n) => exists round :: round in s.finished && round.number == n && EndsWith(s.log, Complete(round))
  }

  lemma DataRecordsSnoc(data: seq<Batch>, last: Batch)
    ensures DataRecords(data + [last]) == DataRecords(data) + [Data(last)]
  {
  }

  lemma DataKeepsMarker(records: seq<Record>, last: Batch)
    ensures LastMarker(records + [Data(last)]) == LastMarker(records)
    ensures LastCursor(records + [Data(last)]) == LastCursor(records)
    ensures LastClean(records + [Data(last)]) == LastClean(records)
  {
    assert (records + [Data(last)])[..|records|] == records;
  }

  lemma {:induction false} DataKeepsMarkers(front: seq<Record>, data: seq<Batch>)
    ensures LastMarker(front + DataRecords(data)) == LastMarker(front)
    ensures LastCursor(front + DataRecords(data)) == LastCursor(front)
    ensures LastClean(front + DataRecords(data)) == LastClean(front)
  {
    var records := front + DataRecords(data);
    if data == [] {
      assert records == front;
    } else {
      var fewer, last := data[..|data| - 1], data[|data| - 1];
      DataKeepsMarkers(front, fewer);
      DataRecordsSnoc(fewer, last);
      assert data == fewer + [last];
      assert records == front + DataRecords(fewer) + [Data(last)];
      DataKeepsMarker(front + DataRecords(fewer), last);
    }
  }

  lemma BegunIsDirty(records: seq<Record>, round: Round)
    requires EndsWith(records, Begun(round))
    ensures LastMarker(records) == Some(Dirty(round.number))
  {
    var cut := |records| - |Begun(round)|;
    var front := records[..cut + 1];
    assert front[cut] == records[cut..][0];
    assert records[cut + 1..] == records[cut..][1..] == DataRecords(round.data);
    assert records == front + DataRecords(round.data);
    DataKeepsMarkers(front, round.data);
  }

  lemma AppendKeepsPrefixes(records: seq<Record>, last: Record, finished: set<Round>, more: set<Round>)
    requires finished <= more
    requires forall k :: 0 <= k <= |records| ==> Sound(records[..k], finished)
    requires Sound(records + [last], more)
    ensures forall k :: 0 <= k <= |records + [last]| ==> Sound((records + [last])[..k], more)
  {
    var longer := records + [last];
    forall k | 0 <= k <= |longer| ensures Sound(longer[..k], more) {
      if k <= |records| {
        assert longer[..k] == records[..k];
      } else {
        assert longer[..k] == longer;
      }
    }
  }

  lemma EndsWithSnoc(records: seq<Record>, suffix: seq<Record>, last: Record)
    requires EndsWith(records, suffix)
    ensures EndsWith(records + [last], suffix + [last])
  {
    var longer := records + [last];
    assert longer[|longer| - |suffix| - 1..] == records[|records| - |suffix|..] + [last];
  }

  lemma AppendKeepsShape(records: seq<Record>, last: Record)
    requires OnlyProjections(records) && CursorsFollowCleans(records) && (last.Data? ==> IsProjection(last.batch))
    requires last.Cursor? ==> records != [] && records[|records| - 1] == Clean(last.round)
    ensures OnlyProjections(records + [last]) && CursorsFollowCleans(records + [last])
  {
    hide IsProjection;
  }

  lemma DirtyKeepsInv(s: System, n: nat)
    requires Inv(s) && Enabled(s, WriteDirty(n))
    ensures Inv(After(s, WriteDirty(n)))
  {
    var longer := s.log + [Dirty(n)];
    assert s.log[..|s.log|] == s.log && longer[..|s.log|] == s.log;
    AppendKeepsPrefixes(s.log, Dirty(n), s.finished, s.finished);
    hide Sound;
    assert longer[|s.log|..] == Begun(Round(n, []));
  }

  lemma DataKeepsInv(s: System, batch: Batch)
    requires Inv(s) && Enabled(s, WriteData(batch))
    ensures Inv(After(s, WriteData(batch)))
  {
    var round := s.phase.round;
    var longer := s.log + [Data(batch)];
    assert s.log[..|s.log|] == s.log && longer[..|s.log|] == s.log;
    AppendKeepsShape(s.log, Data(batch));
    hide OnlyProjections, CursorsFollowCleans;
    BegunIsDirty(s.log, round);
    DataKeepsMarker(s.log, batch);
    hide LastMarker, LastCursor, LastClean;
    AppendKeepsPrefixes(s.log, Data(batch), s.finished, s.finished);
    hide Sound;
    EndsWithSnoc(s.log, Begun(round), Data(batch));
    assert Begun(round) + [Data(batch)] == Begun(Round(round.number, round.data + [batch]));
  }

  lemma CleanKeepsInv(s: System)
    requires Inv(s) && Enabled(s, WriteClean)
    ensures Inv(After(s, WriteClean))
  {
    var round := s.phase.round;
    var longer, finished := s.log + [Clean(round.number)], s.finished + {round};
    assert s.log[..|s.log|] == s.log && longer[..|s.log|] == s.log;
    AppendKeepsShape(s.log, Clean(round.number));
    hide OnlyProjections, CursorsFollowCleans;
    EndsWithSnoc(s.log, Begun(round), Clean(round.number));
    assert EndsWith(longer, Complete(round));
    assert Sound(longer, finished) by {
      hide EndsWith, Complete;
      assert EndsWithRound(longer, round);
      assert round in finished && LastMarker(longer) == Some(Clean(round.number));
    }
    hide Sound, LastMarker, EndsWithRound;
    AppendKeepsPrefixes(s.log, Clean(round.number), s.finished, finished);
    assert round in finished && round.number == round.number && EndsWith(longer, Complete(round));
  }

  /** A cursor right behind its clean marker leaves that marker the last one. */
  lemma CursorAfterClean(records: seq<Record>, n: nat)
    requires records != [] && records[|records| - 1] == Clean(n)
    ensures LastMarker(records + [Cursor(n)]) == Some(Clean(n))
    ensures LastClean(records + [Cursor(n)]) == Some(n) && LastCursor(records + [Cursor(n)]) == Some(n)
  {
    assert (records + [Cursor(n)])[..|records|] == records;
  }

  lemma CompleteEndsClean(records: seq<Record>, round: Round)
    requires EndsWith(records, Complete(round))
    ensures records != [] && records[|records| - 1] == Clean(round.number)
  {
    var suffix := Complete(round);
    assert records[|records| - |suffix|..][|suffix| - 1] == suffix[|suffix| - 1];
  }

  lemma CursorKeepsInv(s: System)
    requires Inv(s) && Enabled(s, WriteCursor)
    ensures Inv(After(s, WriteCursor))
  {
    hide EndsWith, Complete, LastMarker, LastCursor, LastClean;
    var round :| round in s.finished && round.number == s.phase.number && EndsWith(s.log, Complete(round));
    var n := round.number;
    var longer := s.log + [Cursor(n)];
    CompleteEndsClean(s.log, round);
    CursorAfterClean(s.log, n);
    EndsWithSnoc(s.log, Complete(round), Cursor(n));
    assert Sound(longer, s.finished) by {
      assert round in s.finished && Some(Clean(n)) == Some(Clean(round.number)) && EndsWithRound(longer, round);
    }
    hide Sound;
    AppendKeepsPrefixes(s.log, Cursor(n), s.finished, s.finished);
  }

  lemma SeedKeepsInv(s: System, n: nat)
    requires Inv(s) && Enabled(s, WriteSeed(n))
    ensures Inv(After(s, WriteSeed(n)))
  {
    var round, finished := Round(n, []), s.finished + {Round(n, [])};
    var longer := s.log + [Seed(n)];
    assert EndsWith(longer, [Seed(n)]);
    assert EndsWithRound(longer, round);
    assert Sound(longer, finished) by {
      assert round in finished && LastMarker(longer) == Some(Clean(round.number));
    }
    AppendKeepsPrefixes(s.log, Seed(n), s.finished, finished);
  }

  lemma StepKeepsInv(s: System, step: Step)
    requires Inv(s) && Enabled(s, step)
    ensures Inv(After(s, step))
  {
    hide Sound;
    match step
    case WriteDirty(n) => DirtyKeepsInv(s, n);
    case WriteData(batch) => DataKeepsInv(s, batch);
    case WriteClean => CleanKeepsInv(s);
    case WriteCursor => CursorKeepsInv(s);
    case WriteSeed(n) => SeedKeepsInv(s, n);
    case Crash(kept) =>
      forall k | 0 <= k <= kept ensures Sound(s.log[..kept][..k], s.finished) {
        assert s.log[..kept][..k] == s.log[..k];
      }
  }

  lemma {:induction false} RunKeepsInv(s: System, steps: seq<Step>)
    requires Inv(s) && CanRun(s, steps)
    ensures Inv(Run(s, steps))
    decreases |steps|
  {
    if steps != [] {
      StepKeepsInv(s, steps[0]);
      RunKeepsInv(After(s, steps[0]), steps[1..]);
    }
  }

  // ---------- what recovery finds ----------

  /** The last value that a batch, or a sequence of batches, gives a key. */
  function BatchValue(batch: Batch, key: string): Option<string> {
    if batch == [] then None
    else if batch[|batch| - 1].key == key then Some(batch[|batch| - 1].value)
    else BatchValue(batch[..|batch| - 1], key)
  }

  function DataValue(data: seq<Batch>, key: string): Option<string> {
    if data == [] then None
    else if BatchValue(data[|data| - 1], key).Some? then BatchValue(data[|data| - 1], key)
    else DataValue(data[..|data| - 1], key)
  }

  ghost predicate Contains(view: map<string, string>, data: seq<Batch>) {
    forall key :: DataValue(data, key).Some? ==> key in view && view[key] == DataValue(data, key).value
  }

  lemma {:induction false} ApplyGivesBatchValue(view: map<string, string>, batch: Batch, key: string)
    ensures BatchValue(batch, key).Some? ==>
              key in Apply(view, batch) && Apply(view, batch)[key] == BatchValue(batch, key).value
    ensures BatchValue(batch, key).None? ==>
              && (key in Apply(view, batch) <==> key in view)
              && (key in view ==> Apply(view, batch)[key] == view[key])
  {
    if batch != [] {
      ApplyGivesBatchValue(view, batch[..|batch| - 1], key);
    }
  }

  lemma {:induction false} ReplayGivesDataValues(front: seq<Record>, data: seq<Batch>, key: string)
    requires DataValue(data, key).Some?
    ensures var view := Replay(Batches(front + DataRecords(data)));
            key in view && view[key] == DataValue(data, key).value
  {
    var records := front + DataRecords(data);
    var fewer, batch := data[..|data| - 1], data[|data| - 1];
    var before := front + DataRecords(fewer);
    assert Batches(records)[..|records| - 1] == Batches(before);
    assert Batches(records)[|records| - 1] == batch;
    ApplyGivesBatchValue(Replay(Batches(before)), batch, key);
    if BatchValue(batch, key).None? {
      ReplayGivesDataValues(front, fewer, key);
    }
  }

  lemma MarkerKeepsData(records: seq<Record>, last: Record, data: seq<Batch>)
    requires (last.Clean? || last.Cursor?) && Contains(Replay(Batches(records)), data)
    requires forall batch :: batch in data ==> IsProjection(batch)
    ensures Contains(Replay(Batches(records + [last])), data)
  {
    var longer := records + [last];
    assert Batches(longer)[..|records|] == Batches(records);
    ApplyOne(Replay(Batches(records)), BatchOf(last)[0]);
    forall key | DataValue(data, key).Some? ensures key != STATE_KEY && key != CURSOR_KEY {
      ValueComesFromWrite(data, key);
    }
  }

  lemma {:induction false} ValueComesFromWrite(data: seq<Batch>, key: string)
    requires DataValue(data, key).Some? && forall batch :: batch in data ==> IsProjection(batch)
    ensures key != STATE_KEY && key != CURSOR_KEY
  {
    var last := data[|data| - 1];
    if BatchValue(last, key).Some? {
      BatchValueIsWritten(last, key);
      assert last in data;
    } else {
      ValueComesFromWrite(data[..|data| - 1], key);
    }
  }

  lemma {:induction false} BatchValueIsWritten(batch: Batch, key: string)
    requires BatchValue(batch, key).Some?
    ensures exists w :: w in batch && w.key == key
  {
    if batch[|batch| - 1].key != key {
      BatchValueIsWritten(batch[..|batch| - 1], key);
    }
  }

  lemma CompleteRoundIsPresent(records: seq<Record>, round: Round)
    requires OnlyProjections(records) && EndsWith(records, Complete(round))
    ensures Contains(Replay(Batches(records)), round.data)
    ensures forall batch :: batch in round.data ==> IsProjection(batch)
  {
    var cut := |records| - |Complete(round)|;
    var front := records[..cut + 1];
    var written := front + DataRecords(round.data);
    assert records == written + [Clean(round.number)] by {
      assert records[cut..] == Complete(round);
      assert records == records[..cut] + records[cut..];
    }
    forall batch | batch in round.data ensures IsProjection(batch) {
      var i :| 0 <= i < |round.data| && round.data[i] == batch;
      assert records[cut + 1 + i] == Data(batch);
    }
    forall key | DataValue(round.data, key).Some?
      ensures key in Replay(Batches(written)) && Replay(Batches(written))[key] == DataValue(round.data, key).value
    {
      ReplayGivesDataValues(front, round.data, key);
    }
    MarkerKeepsData(written, Clean(round.number), round.data);
  }

  lemma CleanMarkerMeansPresent(records: seq<Record>, finished: set<Round>, n: nat)
    requires OnlyProjections(records) && Sound(records, finished) && LastMarker(records) == Some(Clean(n))
    ensures exists round :: round in finished && round.number == n && Contains(Replay(Batches(records)), round.data)
                            && EndsWithRound(records, round)
  {
    hide Replay, Batches;
    var round :| round in finished && Clean(n) == Clean(round.number)
                 && EndsWithRound(records, round);
    if EndsWith(records, Complete(round)) {
      CompleteRoundIsPresent(records, round);
    } else if EndsWith(records, [Seed(round.number)]) && round.data == [] {
    } else {
      var suffix := Complete(round) + [Cursor(n)];
      var cut := |records| - |suffix|;
      var clean := records[..|records| - 1];
      assert clean[cut..] == suffix[..|suffix| - 1] == Complete(round) by {
        assert records[cut..] == suffix;
      }
      assert records[|records| - 1] == records[cut..][|suffix| - 1];
      assert records == clean + [Cursor(n)];
      CompleteRoundIsPresent(clean, round);
      MarkerKeepsData(clean, Cursor(n), round.data);
    }
  }

  /**
  After any run (with any rounds, crashes and restarts in it) and a crash at its
  end: a recovered `clean:n` means that the log ends with a finished round n, all
  of whose data is present, and a recovered cursor was written with the clean
  marker of its round or right behind it.
  */
  lemma CrashSafety(steps: seq<Step>, kept: nat)
    requires CanRun(EMPTY, steps)
    requires Run(EMPTY, steps).synced <= kept <= |Run(EMPTY, steps).log|
    ensures var s := Run(EMPTY, steps);
            var records := s.log[..kept];
            var view := Replay(Batches(records));
            && (forall n: nat :: STATE_KEY in view && view[STATE_KEY] == CleanText(n) ==>
                  exists round :: round in s.finished && round.number == n && Contains(view, round.data)
                                  && EndsWithRound(records, round))
            && (CURSOR_KEY in view ==>
                  exists c: nat :: view[CURSOR_KEY] == Decimal(c) && CursorIsEarned(records, c))
            && (CleansReachCursor(EMPTY, steps) && CURSOR_KEY in view ==>
                  exists c: nat :: view[CURSOR_KEY] == Decimal(c)
                                   && LastClean(records).Some? && c <= LastClean(records).value)
  {
    hide Replay, Batches, CleanText, Contains, Decimal, Run, CanRun, LastMarker, LastCursor, LastClean,
      CursorIsEarned, CleansReachCursor;
    EmptyIsInv();
    RunKeepsInv(EMPTY, steps);
    var s := Run(EMPTY, steps);
    var records := s.log[..kept];
    var view := Replay(Batches(records));
    RecoveredKeys(records);
    assert Sound(records, s.finished);
    forall n: nat | STATE_KEY in view && view[STATE_KEY] == CleanText(n)
      ensures exists round :: round in s.finished && round.number == n && Contains(view, round.data)
                              && EndsWithRound(records, round)
    {
      MarkersAreDistinct(LastMarker(records).value, n);
      CleanMarkerMeansPresent(records, s.finished, n);
    }
    if CURSOR_KEY in view {
      LastCursorIsEarned(records);
    }
    if CleansReachCursor(EMPTY, steps) {
      EmptyIsWithin();
      RunStaysWithin(EMPTY, steps);
      assert CursorWithin(records);
    }
  }

  ghost predicate CursorIsEarned(records: seq<Record>, c: nat) {
    exists i :: 0 <= i < |records|
                && (records[i] == Seed(c) || (records[i] == Cursor(c) && i > 0 && records[i - 1] == Clean(c)))
  }

  lemma {:induction false} LastCursorIsEarned(records: seq<Record>)
    requires CursorsFollowCleans(records) && LastCursor(records).Some?
    ensures CursorIsEarned(records, LastCursor(records).value)
  {
    var n := |records| - 1;
    if !records[n].Cursor? && !records[n].Seed? {
      var front := records[..n];
      LastCursorIsEarned(front);
      var c := LastCursor(front).value;
      var i :| 0 <= i < n && (front[i] == Seed(c) || (front[i] == Cursor(c) && i > 0 && front[i - 1] == Clean(c)));
      assert records[i] == front[i] && (i > 0 ==> records[i - 1] == front[i - 1]);
    } else {
      var c := records[n].round;
      assert records[n] == Seed(c) || (records[n] == Cursor(c) && n > 0 && records[n - 1] == Clean(c));
    }
  }

  // ---------- when the cursor stays behind ----------

  ghost predicate CursorWithin(records: seq<Record>) {
    LastCursor(records).Some? ==> LastClean(records).Some? && LastCursor(records).value <= LastClean(records).value
  }

  ghost predicate PrefixesWithin(records: seq<Record>) {
    forall k :: 0 <= k <= |records| ==> CursorWithin(records[..k])
  }

  /** Whenever a crash comes during the run, and whatever it keeps, the cursor is not beyond the last clean round. */
  ghost predicate NeverOvertakes(s: System, steps: seq<Step>)
    requires CanRun(s, steps)
    decreases |steps|
  {
    && (forall kept :: s.synced <= kept <= |s.log| ==> CursorWithin(s.log[..kept]))
    && (steps != [] ==> NeverOvertakes(After(s, steps[0]), steps[1..]))
  }

  ghost predicate ReachesCursor(s: System)
    requires s.phase.Writing?
  {
    LastCursor(s.log).Some? ==> LastCursor(s.log).value <= s.phase.round.number
  }

  /** Every clean marker of the run is written for a round that is not behind the cursor. */
  ghost predicate CleansReachCursor(s: System, steps: seq<Step>)
    requires CanRun(s, steps)
    decreases |steps|
  {
    steps != [] ==>
      && (steps[0].WriteClean? ==> ReachesCursor(s))
      && CleansReachCursor(After(s, steps[0]), steps[1..])
  }

  lemma AppendStaysWithinIff(records: seq<Record>, last: Record)
    requires PrefixesWithin(records)
    ensures PrefixesWithin(records + [last]) <==> CursorWithin(records + [last])
  {
    var longer := records + [last];
    assert longer[..|longer|] == longer;
    forall k | 0 <= k <= |records| ensures longer[..k] == records[..k] {
    }
  }

  lemma AppendMovesCursor(records: seq<Record>, last: Record)
    ensures LastCursor(records + [last]) == if last.Cursor? || last.Seed? then Some(last.round) else LastCursor(records)
    ensures LastClean(records + [last]) == if last.Clean? || last.Seed? then Some(last.round) else LastClean(records)
  {
    assert (records + [last])[..|records|] == records;
  }

  lemma StepStaysWithinIff(s: System, step: Step)
    requires Inv(s) && Enabled(s, step) && PrefixesWithin(s.log)
    ensures PrefixesWithin(After(s, step).log) <==> (step.WriteClean? ==> ReachesCursor(s))
    ensures !PrefixesWithin(After(s, step).log) ==> !CursorWithin(After(s, step).log)
  {
    hide LastCursor, LastClean, Sound, CursorsFollowCleans, OnlyProjections;
    assert s.log[..|s.log|] == s.log;
    assert CursorWithin(s.log);
    if step.Crash? {
      forall k | 0 <= k <= step.kept ensures s.log[..step.kept][..k] == s.log[..k] {
      }
    } else {
      if step.WriteCursor? {
        var round :| round in s.finished && round.number == s.phase.number && EndsWith(s.log, Complete(round));
        CompleteEndsClean(s.log, round);
        CursorAfterClean(s.log, s.phase.number);
      }
      hide EndsWith, Complete, Begun;
      var last := After(s, step).log[|s.log|];
      assert After(s, step).log == s.log + [last];
      AppendStaysWithinIff(s.log, last);
      AppendMovesCursor(s.log, last);
    }
  }

  /**
  The cursor stays behind the last clean round, through every crash of a run, if
  and only if no clean marker of the run is for a round behind the cursor.
  */
  lemma {:induction false} NeverOvertakesIff(s: System, steps: seq<Step>)
    requires Inv(s) && CanRun(s, steps) && PrefixesWithin(s.log)
    ensures NeverOvertakes(s, steps) <==> CleansReachCursor(s, steps)
    decreases |steps|
  {
    if steps != [] {
      var next := After(s, steps[0]);
      hide Inv, Enabled, After, PrefixesWithin, ReachesCursor, CursorWithin;
      StepKeepsInv(s, steps[0]);
      StepStaysWithinIff(s, steps[0]);
      if PrefixesWithin(next.log) {
        NeverOvertakesIff(next, steps[1..]);
      } else {
        WholeLogMayBeKept(next, steps[1..]);
      }
      PrefixesAreWithin(s);
    } else {
      PrefixesAreWithin(s);
    }
  }

  lemma PrefixesAreWithin(s: System)
    requires PrefixesWithin(s.log)
    ensures forall kept :: s.synced <= kept <= |s.log| ==> CursorWithin(s.log[..kept])
  {
  }

  lemma WholeLogMayBeKept(s: System, steps: seq<Step>)
    requires Inv(s) && CanRun(s, steps) && !CursorWithin(s.log)
    ensures !NeverOvertakes(s, steps)
  {
    assert s.log[..|s.log|] == s.log;
  }

  lemma {:induction false} RunStaysWithin(s: System, steps: seq<Step>)
    requires Inv(s) && CanRun(s, steps) && PrefixesWithin(s.log) && CleansReachCursor(s, steps)
    ensures PrefixesWithin(Run(s, steps).log)
    decreases |steps|
  {
    if steps != [] {
      hide Inv, Enabled, After, PrefixesWithin, ReachesCursor;
      StepKeepsInv(s, steps[0]);
      StepStaysWithinIff(s, steps[0]);
      RunStaysWithin(After(s, steps[0]), steps[1..]);
    }
  }

  lemma EmptyIsWithin()
    ensures PrefixesWithin(EMPTY.log)
  {
  }

  /** A writer whose round is behind the recovered cursor leaves the cursor beyond the last clean round. */
  lemma OldRoundFallsBehind(cursor: nat, n: nat)
    requires n < cursor
    ensures var steps := [WriteSeed(cursor), WriteDirty(n), WriteClean];
            && CanRun(EMPTY, steps) && !NeverOvertakes(EMPTY, steps)
            && LastCursor(Run(EMPTY, steps).log) == Some(cursor) && LastClean(Run(EMPTY, steps).log) == Some(n)
  {
    var seeded := After(EMPTY, WriteSeed(cursor));
    var begun := After(seeded, WriteDirty(n));
    var finished := After(begun, WriteClean);
    AppendMovesCursor([], Seed(cursor));
    AppendMovesCursor(seeded.log, Dirty(n));
    AppendMovesCursor(begun.log, Clean(n));
    hide LastCursor, LastClean;
    assert [WriteClean][1..] == [] && [WriteDirty(n), WriteClean][1..] == [WriteClean];
    assert [WriteSeed(cursor), WriteDirty(n), WriteClean][1..] == [WriteDirty(n), WriteClean];
    assert Run(finished, []) == finished;
    assert CanRun(begun, [WriteClean]) && Run(begun, [WriteClean]) == finished;
    assert CanRun(seeded, [WriteDirty(n), WriteClean]) && Run(seeded, [WriteDirty(n), WriteClean]) == finished;
    EmptyIsInv();
    EmptyIsWithin();
    NeverOvertakesIff(EMPTY, [WriteSeed(cursor), WriteDirty(n), WriteClean]);
    assert !ReachesCursor(begun) && !CleansReachCursor(begun, [WriteClean]);
    assert !CleansReachCursor(seeded, [WriteDirty(n), WriteClean]);
  }

  lemma BegunPrefix(round: Round, count: nat)
    requires count <= |round.data|
    ensures Begun(round)[..count + 1] == Begun(Round(round.number, round.data[..count]))
  {
  }

  /** A crash between the dirty and the clean marker is recovered as dirty, whatever data it keeps. */
  lemma UnfinishedRoundIsDirty(s: System, kept: nat)
    requires Inv(s) && s.phase.Writing? && s.synced <= kept <= |s.log|
    ensures var view := Replay(Batches(s.log[..kept]));
            STATE_KEY in view && view[STATE_KEY] == DirtyText(s.phase.round.number)
  {
    var records, round := s.log[..kept], s.phase.round;
    var start := |s.log| - |Begun(round)|;
    var begun := Round(round.number, round.data[..kept - start - 1]);
    hide LastMarker, LastCursor, LastClean, Replay, Batches, Sound;
    assert records[start..] == Begun(round)[..kept - start];
    BegunPrefix(round, kept - start - 1);
    BegunIsDirty(records, begun);
    RecoveredKeys(records);
  }

  /** From the moment the clean marker is written, no crash loses it or any of the round's data. */
  lemma CleanedRoundIsDurable(s: System, kept: nat)
    requires Inv(s) && s.phase.Writing?
    requires After(s, WriteClean).synced <= kept <= |After(s, WriteClean).log|
    ensures var view := Replay(Batches(After(s, WriteClean).log[..kept]));
            && STATE_KEY in view && view[STATE_KEY] == CleanText(s.phase.round.number)
            && Contains(view, s.phase.round.data)
  {
    var round, records := s.phase.round, s.log + [Clean(s.phase.round.number)];
    assert After(s, WriteClean).log[..kept] == records;
    RecoveredKeys(records);
    EndsWithSnoc(s.log, Begun(round), Clean(round.number));
    hide Replay, Batches, Contains;
    CompleteRoundIsPresent(records, round);
  }

  lemma EmptyIsInv()
    ensures Inv(EMPTY)
  {
  }

  /** What was durable once is in the log after any further steps and crashes. */
  lemma {:induction false} DurablePrefixSurvives(s: System, steps: seq<Step>)
    requires s.synced <= |s.log| && CanRun(s, steps)
    ensures var later := Run(s, steps);
            s.synced <= later.synced <= |later.log| && s.log[..s.synced] <= later.log
    decreases |steps|
  {
    if steps != [] {
      var next := After(s, steps[0]);
      assert s.log[..s.synced] <= next.log[..next.synced];
      DurablePrefixSurvives(next, steps[1..]);
    }
  }

  // ---------- the writer ----------

  /** The steps of one round, in the writer's order. */
  function RoundSteps(n: nat, data: seq<Batch>): seq<Step> {
    [WriteDirty(n)] + seq(|data|, i requires 0 <= i < |data| => WriteData(data[i])) + [WriteClean, WriteCursor]
  }

  ghost predicate Represents(log: seq<seq<WriteBatches.StoreWrite>>, synced: nat, s: System) {
    log == StoreLog(Batches(s.log)) && synced == s.synced
  }

  lemma {:induction false} RunSnoc(s: System, steps: seq<Step>, last: Step)
    requires CanRun(s, steps) && Enabled(Run(s, steps), last)
    ensures CanRun(s, steps + [last]) && Run(s, steps + [last]) == After(Run(s, steps), last)
    decreases |steps|
  {
    if steps == [] {
      assert [last][1..] == [];
    } else {
      RunSnoc(After(s, steps[0]), steps[1..], last);
      assert (steps + [last])[1..] == steps[1..] + [last];
    }
  }

  lemma RunNothing(s: System)
    ensures CanRun(s, []) && Run(s, []) == s
  {
  }

  /** One `{:ok, 1} = write_batch(...)` of the writer is one step of the protocol. */
  method WriteStep(db: WriteBatches.Handle, r: Record, ghost s: System, ghost step: Step)
    requires db.Valid() && db.isOpen && Represents(db.log, db.synced, s) && Enabled(s, step) && !step.Crash?
    requires After(s, step).log == s.log + [r]
    modifies db
    ensures db.Valid() && db.isOpen && Represents(db.log, db.synced, After(s, step))
    ensures db.cells == MergeStore.BatchLazily(old(db.cells), Puts(BatchOf(r)))
  {
    var sync := Entry(Some("sync"), Boolean(true));
    var options: seq<Entry> := if r.Data? then [] else [sync];
    LookupOne(sync, "sync");
    LookupOne(sync, "disable_wal");
    PutTermsParse(BatchOf(r), db.families);
    var reply := db.WriteBatch(Some(PutTerms(BatchOf(r))), Some(options), None);
    LogGrows(s.log, r);
    assert After(s, step).log[|s.log|] == r;
  }

  lemma LogGrows(records: seq<Record>, r: Record)
    ensures StoreLog(Batches(records + [r])) == StoreLog(Batches(records)) + [Puts(BatchOf(r))]
  {
    assert Batches(records + [r]) == Batches(records) + [BatchOf(r)];
    var log, batch := Batches(records), BatchOf(r);
    assert StoreLog(log + [batch]) == StoreLog(log) + [Puts(batch)];
  }

  /** The step that follows a run. */
  method WriteNext(db: WriteBatches.Handle, r: Record, ghost s: System, ghost steps: seq<Step>, ghost i: nat)
    requires i < |steps| && CanRun(s, steps[..i]) && Enabled(Run(s, steps[..i]), steps[i]) && !steps[i].Crash?
    requires After(Run(s, steps[..i]), steps[i]).log == Run(s, steps[..i]).log + [r]
    requires db.Valid() && db.isOpen && Represents(db.log, db.synced, Run(s, steps[..i]))
    modifies db
    ensures CanRun(s, steps[..i + 1]) && Run(s, steps[..i + 1]) == After(Run(s, steps[..i]), steps[i])
    ensures db.Valid() && db.isOpen && Represents(db.log, db.synced, Run(s, steps[..i + 1]))
  {
    hide *;
    ghost var before, step := steps[..i], steps[i];
    assert steps[..i + 1] == before + [step];
    RunSnoc(s, before, step);
    WriteStep(db, r, Run(s, before), step);
  }

  /** The writer, halting after the given number of writes, takes exactly that many steps of its round. */
  method RunWriter(db: WriteBatches.Handle, n: nat, data: seq<Batch>, haltAfter: nat, ghost s: System)
    requires db.Valid() && db.isOpen && Represents(db.log, db.synced, s) && Enabled(s, WriteDirty(n))
    requires forall batch :: batch in data ==> IsProjection(batch)
    modifies db
    ensures var steps := RoundSteps(n, data)[..if haltAfter < |data| + 3 then haltAfter else |data| + 3];
            db.Valid() && db.isOpen && CanRun(s, steps) && Represents(db.log, db.synced, Run(s, steps))
  {
    hide Run, CanRun, Represents, LastCursor, IsProjection;
    ghost var steps := RoundSteps(n, data);
    assert steps[..0] == [];
    RunNothing(s);
    if haltAfter == 0 {
      return;
    }
    WriteNext(db, Dirty(n), s, steps, 0);
    if haltAfter == 1 {
      return;
    }
    for i := 0 to |data|
      invariant i + 1 < haltAfter
      invariant db.Valid() && db.isOpen && CanRun(s, steps[..i + 1])
      invariant Represents(db.log, db.synced, Run(s, steps[..i + 1]))
      invariant Run(s, steps[..i + 1]).phase.Writing? && Run(s, steps[..i + 1]).phase.round.number == n
    {
      assert steps[i + 1] == WriteData(data[i]) && data[i] in data;
      WriteNext(db, Data(data[i]), s, steps, i + 1);
      if haltAfter == i + 2 {
        return;
      }
    }
    WriteNext(db, Clean(n), s, steps, |data| + 1);
    if haltAfter == |data| + 2 {
      return;
    }
    WriteNext(db, Cursor(n), s, steps, |data| + 2);
  }

  // ---------- a crash of the store, and what the writer leaves ----------

  /** A crash cuts the store's log as it cuts the protocol's, and the reopened store shows what is left. */
  method CrashAndReopen(db: WriteBatches.Handle, kept: nat, ghost s: System) returns (reopened: WriteBatches.Handle)
    requires db.Valid() && Represents(db.log, db.synced, s) && db.synced <= kept <= |db.log|
    ensures fresh(reopened) && reopened.Valid() && reopened.isOpen && reopened.families == db.families
    ensures Enabled(s, Crash(kept)) && Represents(reopened.log, reopened.synced, After(s, Crash(kept)))
    ensures Shows(reopened.cells, Replay(Batches(s.log[..kept])))
  {
    CutLogRepresents(s.log, kept);
    ReopenedStoreShowsReplay(Batches(s.log[..kept]));
    reopened := new WriteBatches.Handle(db.families, db.log[..kept]);
  }

  lemma CutLogRepresents(records: seq<Record>, kept: nat)
    requires kept <= |records|
    ensures StoreLog(Batches(records))[..kept] == StoreLog(Batches(records[..kept]))
  {
    assert Batches(records)[..kept] == Batches(records[..kept]);
  }

  /** The records of one round, in the writer's order. */
  function RoundRecords(n: nat, data: seq<Batch>): seq<Record> {
    Complete(Round(n, data)) + [Cursor(n)]
  }

  /** Where the writer stands after `i` of its writes. */
  ghost predicate Stands(s: System, n: nat, data: seq<Batch>, i: nat, now: System)
    requires i <= |data| + 3
  {
    && now.log == s.log + RoundRecords(n, data)[..i]
    && now.synced == (if i == 0 then s.synced else if i <= |data| + 1 then |s.log| + 1 else |now.log|)
    && now.phase == (if i == 0 || i == |data| + 3 then Ready
                     else if i == |data| + 2 then Cleaned(n)
                     else Writing(Round(n, data[..i - 1])))
  }

  lemma {:induction false} WriterStands(s: System, n: nat, data: seq<Batch>, i: nat)
    requires s.phase.Ready? && i <= |data| + 3 && forall batch :: batch in data ==> IsProjection(batch)
    ensures CanRun(s, RoundSteps(n, data)[..i]) && Stands(s, n, data, i, Run(s, RoundSteps(n, data)[..i]))
  {
    hide IsProjection, Run, CanRun;
    var steps := RoundSteps(n, data);
    if i == 0 {
      assert steps[..0] == [] && RoundRecords(n, data)[..0] == [];
      RunNothing(s);
    } else {
      WriterStands(s, n, data, i - 1);
      var before := Run(s, steps[..i - 1]);
      assert 2 <= i <= |data| + 1 ==> steps[i - 1] == WriteData(data[i - 2]) && data[i - 2] in data;
      assert steps[..i] == steps[..i - 1] + [steps[i - 1]];
      RunSnoc(s, steps[..i - 1], steps[i - 1]);
      OneMoreStands(s, n, data, i, before);
    }
  }

  lemma OneMoreStands(s: System, n: nat, data: seq<Batch>, i: nat, before: System)
    requires 0 < i <= |data| + 3 && Stands(s, n, data, i - 1, before) && Enabled(before, RoundSteps(n, data)[i - 1])
    ensures Stands(s, n, data, i, After(before, RoundSteps(n, data)[i - 1]))
  {
    hide LastCursor, LastMarker;
    var records := RoundRecords(n, data);
    assert records[..i] == records[..i - 1] + [records[i - 1]];
    assert 2 <= i <= |data| + 1 ==> data[..i - 1] == data[..i - 2] + [data[i - 2]];
  }

  ghost predicate SameAt(a: map<string, string>, b: map<string, string>, key: string) {
    (key in a <==> key in b) && (key in a ==> a[key] == b[key])
  }

  /**
  The failure matrix: what is recovered when the writer, started on a durable
  database, halts after `i` of its writes and a crash follows. Before the dirty
  marker nothing has changed; before the clean marker the round is dirty; after
  it the round is clean with all of its data; the cursor moves with its own write.
  */
  lemma FailureMatrix(s: System, n: nat, data: seq<Batch>, i: nat, kept: nat)
    requires Inv(s) && s.phase.Ready? && s.synced == |s.log|
    requires i <= |data| + 3 && forall batch :: batch in data ==> IsProjection(batch)
    requires CanRun(s, RoundSteps(n, data)[..i])
    requires var now := Run(s, RoundSteps(n, data)[..i]); now.synced <= kept <= |now.log|
    ensures var before := Replay(Batches(s.log));
            var view := Replay(Batches(Run(s, RoundSteps(n, data)[..i]).log[..kept]));
            && (i == 0 ==> view == before)
            && (1 <= i <= |data| + 1 ==> STATE_KEY in view && view[STATE_KEY] == DirtyText(n))
            && (|data| + 2 <= i ==>
                  STATE_KEY in view && view[STATE_KEY] == CleanText(n) && Contains(view, data))
            && (i <= |data| + 2 ==> SameAt(view, before, CURSOR_KEY))
            && (i == |data| + 3 ==> CURSOR_KEY in view && view[CURSOR_KEY] == Decimal(n))
  {
    WriterStands(s, n, data, i);
    RunKeepsInv(s, RoundSteps(n, data)[..i]);
    hide *;
    var now := Run(s, RoundSteps(n, data)[..i]);
    if i == 0 {
      NothingWritten(s, n, data, now, kept);
    } else if i <= |data| + 1 {
      RoundIsUnfinished(s, n, data, i, now, kept);
    } else {
      RoundIsFinished(s, n, data, i, now, kept);
    }
  }

  lemma NothingWritten(s: System, n: nat, data: seq<Batch>, now: System, kept: nat)
    requires s.synced == |s.log| && Stands(s, n, data, 0, now) && now.synced <= kept <= |now.log|
    ensures Replay(Batches(now.log[..kept])) == Replay(Batches(s.log))
    ensures SameAt(Replay(Batches(now.log[..kept])), Replay(Batches(s.log)), CURSOR_KEY)
  {
    assert now.log[..kept] == s.log;
  }

  lemma RoundIsUnfinished(s: System, n: nat, data: seq<Batch>, i: nat, now: System, kept: nat)
    requires OnlyProjections(s.log) && Inv(now) && 1 <= i <= |data| + 1
    requires Stands(s, n, data, i, now) && now.synced <= kept <= |now.log|
    ensures var view := Replay(Batches(now.log[..kept]));
            && STATE_KEY in view && view[STATE_KEY] == DirtyText(n)
            && SameAt(view, Replay(Batches(s.log)), CURSOR_KEY)
  {
    hide Replay, Batches, Sound, DirtyText, Decimal, LastMarker, LastCursor, LastClean;
    UnfinishedRoundIsDirty(now, kept);
    var records, begun := now.log[..kept], Round(n, data[..kept - |s.log| - 1]);
    assert records == s.log + Begun(begun);
    BegunKeepsCursor(s.log, begun);
    RecoveredKeys(s.log);
    RecoveredKeys(records);
  }

  lemma RoundIsFinished(s: System, n: nat, data: seq<Batch>, i: nat, now: System, kept: nat)
    requires OnlyProjections(s.log) && OnlyProjections(now.log) && |data| + 2 <= i <= |data| + 3
    requires Stands(s, n, data, i, now) && now.synced <= kept <= |now.log|
    ensures var view := Replay(Batches(now.log[..kept]));
            && STATE_KEY in view && view[STATE_KEY] == CleanText(n) && Contains(view, data)
            && (i == |data| + 2 ==> SameAt(view, Replay(Batches(s.log)), CURSOR_KEY))
            && (i == |data| + 3 ==> CURSOR_KEY in view && view[CURSOR_KEY] == Decimal(n))
  {
    var round := Round(n, data);
    assert RoundRecords(n, data)[..|data| + 2] == Complete(round);
    assert RoundRecords(n, data)[..|data| + 3] == Complete(round) + [Cursor(n)];
    assert now.log[..kept] == now.log == s.log + RoundRecords(n, data)[..i];
    hide Replay, Batches, CleanText, Decimal, LastMarker, LastCursor, LastClean, Contains, Complete, RoundRecords;
    assert s.log + (Complete(round) + [Cursor(n)]) == s.log + Complete(round) + [Cursor(n)];
    assert i == |data| + 3 ==> |now.log| == |s.log + Complete(round)| + 1;
    RoundIsRecovered(s.log, round, now.log);
    RecoveredKeys(s.log);
    RecoveredKeys(now.log);
  }

  lemma BegunKeepsCursor(records: seq<Record>, round: Round)
    ensures LastCursor(records + Begun(round)) == LastCursor(records)
    ensures LastMarker(records + Begun(round)) == Some(Dirty(round.number))
  {
    var dirty := records + [Dirty(round.number)];
    assert dirty[..|records|] == records;
    assert records + Begun(round) == dirty + DataRecords(round.data);
    DataKeepsMarkers(dirty, round.data);
  }

  lemma RoundIsRecovered(before: seq<Record>, round: Round, records: seq<Record>)
    requires OnlyProjections(records)
    requires records == before + Complete(round) || records == before + Complete(round) + [Cursor(round.number)]
    ensures LastMarker(records) == Some(Clean(round.number)) && Contains(Replay(Batches(records)), round.data)
    ensures LastCursor(records)
            == if records == before + Complete(round) then LastCursor(before) else Some(round.number)
  {
    var n := round.number;
    var clean := before + Complete(round);
    var begun := before + Begun(round);
    assert clean == begun + [Clean(n)] && clean[..|begun|] == begun;
    BegunKeepsCursor(before, round);
    assert LastMarker(clean) == Some(Clean(n)) && LastCursor(clean) == LastCursor(before);
    assert clean[|before|..] == Complete(round);
    assert clean == records[..|clean|];
    CompleteRoundIsPresent(clean, round);
    if records != clean {
      CursorAfterClean(clean, n);
      MarkerKeepsData(clean, Cursor(n), round.data);
    }
  }

  // ---------- a round whose data bypasses the log ----------

  /** One write with any accepted options, as contents and log see it. */
  method WriteWith(
      db: WriteBatches.Handle, batch: Batch, options: seq<Entry>,
      ghost view: map<string, string>, ghost log: seq<Batch>)
    requires db.Valid() && db.isOpen && WriteOptionsAccepted(Some(options))
    requires Shows(db.cells, view) && db.log == StoreLog(log)
    modifies db
    ensures db.Valid() && db.isOpen && Shows(db.cells, Apply(view, batch))
    ensures db.log == StoreLog(if Flag(options, "disable_wal") then log else log + [batch])
    ensures db.synced == if Flag(options, "sync") then |db.log| else old(db.synced)
  {
    PutTermsParse(batch, db.families);
    PutsShow(db.cells, view, batch);
    assert StoreLog(log + [batch]) == StoreLog(log) + [Puts(batch)];
    hide Shows, Puts, PutTerms, Apply;
    var reply := db.WriteBatch(Some(PutTerms(batch)), Some(options), None);
  }

  /** What a crash after the round leaves: the markers, and of the projection only what there was before. */
  ghost predicate LosesRound(before: map<string, string>, recovered: map<string, string>, n: nat) {
    && STATE_KEY in recovered && recovered[STATE_KEY] == CleanText(n)
    && CURSOR_KEY in recovered && recovered[CURSOR_KEY] == Decimal(n)
    && forall key :: key != STATE_KEY && key != CURSOR_KEY ==>
         (key in recovered <==> key in before) && (key in before ==> recovered[key] == before[key])
  }

  lemma MarkersKeepProjection(log: seq<Batch>, n: nat)
    ensures var marked := log + [BatchOf(Dirty(n))] + [BatchOf(Clean(n))] + [BatchOf(Cursor(n))];
            LosesRound(Replay(log), Replay(marked), n)
  {
    var dirty := log + [BatchOf(Dirty(n))];
    var clean := dirty + [BatchOf(Clean(n))];
    var marked := clean + [BatchOf(Cursor(n))];
    assert dirty[..|log|] == log && clean[..|dirty|] == dirty && marked[..|clean|] == clean;
    ApplyOne(Replay(log), Write(STATE_KEY, DirtyText(n)));
    ApplyOne(Replay(dirty), Write(STATE_KEY, CleanText(n)));
    ApplyOne(Replay(clean), Write(CURSOR_KEY, Decimal(n)));
  }

  lemma RoundShowsItsData(view: map<string, string>, batch: Batch, n: nat)
    requires IsProjection(batch)
    ensures var written := Apply(Apply(view, BatchOf(Dirty(n))), batch);
            Contains(Apply(Apply(written, BatchOf(Clean(n))), BatchOf(Cursor(n))), [batch])
  {
    var marked := Apply(view, BatchOf(Dirty(n)));
    var written := Apply(marked, batch);
    ApplyOne(written, Write(STATE_KEY, CleanText(n)));
    ApplyOne(Apply(written, BatchOf(Clean(n))), Write(CURSOR_KEY, Decimal(n)));
    forall key | DataValue([batch], key).Some?
      ensures key != STATE_KEY && key != CURSOR_KEY && key in written && written[key] == DataValue([batch], key).value
    {
      var data := [batch];
      assert data[..|data| - 1] == [] && DataValue([], key) == None;
      assert BatchValue(batch, key).Some?;
      ApplyGivesBatchValue(marked, batch, key);
      BatchValueIsWritten(batch, key);
    }
  }

  /**
  A whole round, all of its log durable, whose projection batch is written with
  the log off: the running database has the data, and the reopened one has the
  clean marker and the cursor of the round but none of the data.
  */
  method UnloggedDataIsLost(
      db: WriteBatches.Handle, n: nat, batch: Batch, ghost view: map<string, string>, ghost log: seq<Batch>)
    returns (ghost live: map<string, string>, ghost logged: seq<Batch>)
    requires db.Valid() && db.isOpen && IsProjection(batch)
    requires Shows(db.cells, view) && db.log == StoreLog(log)
    modifies db
    ensures Shows(db.cells, live) && Contains(live, [batch])
    ensures db.log == StoreLog(logged) && db.synced == |db.log|
    ensures LosesRound(Replay(log), Replay(logged), n)
  {
    var sync, unlogged := Entry(Some("sync"), Boolean(true)), Entry(Some("disable_wal"), Boolean(true));
    LookupOne(sync, "sync");
    LookupOne(sync, "disable_wal");
    LookupOne(unlogged, "sync");
    LookupOne(unlogged, "disable_wal");
    hide Shows, StoreLog, Contains, LosesRound, Apply, Replay, IsProjection, BatchOf;
    var dirty, clean, cursor := BatchOf(Dirty(n)), BatchOf(Clean(n)), BatchOf(Cursor(n));
    WriteWith(db, dirty, [sync], view, log);
    live := Apply(view, dirty);
    WriteWith(db, batch, [unlogged], live, log + [dirty]);
    live := Apply(live, batch);
    WriteWith(db, clean, [sync], live, log + [dirty]);
    live := Apply(live, clean);
    WriteWith(db, cursor, [sync], live, log + [dirty] + [clean]);
    live := Apply(live, cursor);
    logged := log + [dirty] + [clean] + [cursor];
    MarkersKeepProjection(log, n);
    RoundShowsItsData(view, batch, n);
  }
}
