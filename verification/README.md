# ExRocket: a verified model

ExRocket is an Erlang/Elixir binding to RocksDB. Most of its native crate hands
arguments through; this project models the parts that hold state, arithmetic or
a protocol of their own, and proves what they are relied upon for.

* **Closing a database that has children** (`Lease.dfy`). Native iterators and
  snapshots have their lifetime extended to `'static`. What keeps the database
  alive underneath them is a read guard, a lease counter, the order in which
  resource fields are destroyed, and a check in `close`. Every call is cut into
  the steps between which another thread may run; there may be any number of
  threads, iterators and snapshots. The class `DbResource` at the end has the two
  shared fields and the operations on them, each of which performs steps of the
  transition system.
* **Bounded pages** (`Paging.dfy`). An iterator with one slot of look-ahead that
  hands out pages bounded by rows and bytes. `Take` is the specification of one
  page and the class's loop is proved against it; the rest is about `Take`.
* **Merge operators** (`Counter.dfy`, `Bitset.dfy`, `ErlangTerms.dfy`,
  `ErlangMerge.dfy`). Each is a loop over operands, proved equal to a left fold
  over them. `Text.dfy` and `Machine.dfy` have the UTF-8, number and
  two's-complement arithmetic that the operators rest on.
* **Merging on the store's schedule** (`MergeStore.dfy`, `WriteBatches.dfy`). The
  store may fold waiting operands into the base value whenever it likes, and merge
  neighbouring operands with one another. `Handle.WriteBatch` writes to such a
  store and to its log.
* **Durable checkpoints** (`Checkpoint.dfy`). Dirty marker, projection writes,
  clean marker and cursor over the log of `WriteBatches.Handle`, which a crash may
  cut anywhere behind its synced part.
* **Option decoding** (`OptionMaps.dfy`, `DbOptions.dfy`).

Code that changes state is written as classes and methods with loops; each of
those methods is proved equal to a function of its inputs or of the old state,
and the properties are proved about those functions.

Two's-complement arithmetic wraps silently, as in the release builds that are
shipped. A panic of `Vec::drain` is an outcome of the model, not a precondition.

Where the code differs from what it is used for:

* All three merge operators are registered as associative, which lets the store
  merge operands among themselves. Only the counter supports that
  (`Counter.ScheduleIndependence`). For the bitset it is harmless exactly when
  the operands end by clearing everything (`Bitset.PartialMergeIffCleared`). The
  Erlang operator loses every edit (`ErlangMerge.PartialMergeLosesEdits`); it is
  harmless on every base exactly when no operand is a term
  (`ErlangMerge.PartialMergeIsSafeIff`).
* A merge whose operands hold no term replaces a stored Erlang term by a decimal
  string, and no other merge does (`ErlangMerge.TermSurvivesIff`). That is why
  merging in parts may differ from merging at once
  (`ErlangMerge.MergeComposesIff`).
* `binary_replace` inserts nothing when its range does not end inside, so it is
  then not an erasure followed by an insertion
  (`ErlangTerms.ReplaceIsEraseThenInsertIff`).
* The writer does not read the recovered cursor. A round behind it is finished and
  recovered like any other, but the cursor is then beyond the last clean round
  (`Checkpoint.OldRoundFallsBehind`, `Checkpoint.NeverOvertakesIff`).
* The comment in `list_prepend` speaks of reverse order; the loop inserts in
  order, and the prepended elements keep theirs (`ErlangTerms.EndsAreInsertions`).

## Model

| member | source | states |
|---|---|---|
| Lease.NothingDangles | native/rocker/src/nif.rs:86-114 | in every state that any interleaving of any calls and destructors can reach, a live native iterator or snapshot, and every call that uses one, finds the database present; a live snapshot iterator finds its snapshot whole; and the lease counter is positive exactly while something holds a lease |
| Lease.StepKeepsInv | native/rocker/src/nif.rs:730-745 | every micro-step keeps the invariant: guards exclude each other, a resource in use is whole, whatever is native has a guard, a lease or a live snapshot standing for it |
| Lease.StepConservesLeases | native/rocker/src/nif.rs:33-45 | at every step the counter equals live snapshots plus live direct iterators plus leases in the hands of creating threads; a failed construction leaves it alone |
| Lease.LeasesCoverHolders | native/rocker/src/nif.rs:40-45 | the counter never underflows and is zero exactly when nothing holds a lease |
| Lease.ClosingDropsNothing | native/rocker/src/nif.rs:272-282 | between the zero count and the drop, under the write guard, no native child exists and no other call is past its check |
| Lease.CloseIsBusyIffLeased | native/rocker/src/nif.rs:276-282 | `close` answers busy if and only if something holds a lease, and removes the database otherwise |
| Lease.ClosedForever | native/rocker/src/nif.rs:280-282 | a removed database never returns |
| Lease.ClosedAnswers | native/rocker/src/nif.rs:134-169 | every call that begins after the removal, however much later and whatever else runs, is one that takes a guard; it never gets past it, and answers `closed`, or ok if it is another `close`; nothing native is used |
| Lease.OnlyClosedAnswers | native/rocker/src/nif.rs:153-169 | the same for calls that were already waiting when the database was removed |
| Lease.ChildCallsNeedOpen | native/rocker/src/nif.rs:873-906 | an iterator or snapshot that a call could be given keeps the database present |
| Lease.SnapshotCallsFindItOpen | native/rocker/src/nif.rs:885-895 | a call on a live snapshot never finds the database closed |
| Lease.RaceOutcomes | native/rocker/src/nif.rs:266-285 | creating an iterator, or a snapshot whose guard goes before its resource is built, while closing a fresh handle ends in (created, busy) or (closed, ok), nothing else |
| Lease.DeadlockFree | native/rocker/src/nif.rs:1015-1035 | while any call is in flight some thread can step, even if waiting writers go before new readers |
| Lease.EveryStepShortensTheCall | native/rocker/src/nif.rs:857-870 | every call ends after a bounded number of its own steps |
| Lease.CallsCanFinish | native/rocker/src/nif.rs:996-1035 | from every state whatever, the calls in flight can all be run to their end by their own steps |
| Lease.AloneACallFinishes | native/rocker/src/nif.rs:996-1035 | with no other call in flight, a call comes to its end by its own steps |
| Lease.CallsDoTheirWork | native/rocker/src/nif.rs:747-1035 | what a call that runs by itself on an open database has done at its end: iterators and snapshots answer created and leave one more that is held, whole and leased; snapshot iterators answer created and leave one more that holds its snapshot and takes no lease; queries, snapshot reads, iterator reads and column-family changes answer done and leave iterators, snapshots and counter alone |
| Lease.CallsGiveTheirAnswers | native/rocker/src/nif.rs:153-169 | in every interleaving, the answers a call may give are those of its own kind |
| Lease.CallsBeginIffTermHeld | native/rocker/src/nif.rs:849-855 | a call can begin on an idle thread if and only if some term refers to the handle, snapshot or iterator it needs |
| Lease.CallsGoIffLockIsFree | native/rocker/src/nif.rs:134-150 | a call is delayed if and only if another thread holds the lock it waits for: readers share the database, a writer excludes all, mutexes exclude one another |
| Lease.LocksExclude | native/rocker/src/nif.rs:94-124 | in every reachable state the write guard excludes every other guard, and no two calls hold the same snapshot or iterator mutex |
| Lease.ChildrenCanBeReleased | native/rocker/src/nif.rs:86-114 | when no call is in flight, forgetting the terms and running the destructors to their ends leaves nothing of any child, the counter at zero and nothing for `close` to be busy about |
| Lease.HandleCanBeDropped | native/rocker/src/nif.rs:22-25 | then the last reference to the handle may go, and the database with it |
| Lease.DbResource.constructor | native/rocker/src/nif.rs:126-132 | a new handle is the initial state of the transition system: present, no leases |
| Lease.DbResource.Acquire | native/rocker/src/nif.rs:33-38 | taking a lease performs the thread's step after it has made its native child |
| Lease.DbResource.Release | native/rocker/src/nif.rs:40-45 | dropping a lease performs the destructor's step, and the count was positive, as the crate asserts |
| Lease.DbResource.Close | native/rocker/src/nif.rs:265-285 | an undisturbed `close` performs its run of steps: present afterwards if and only if it was and something holds a lease, with the matching answer |
| Paging.IteratorState.NativeNext | native/rocker/src/nif.rs:104-107 | rows come in order, exhaustion is sticky |
| Paging.IteratorState.Advance | native/rocker/src/nif.rs:1171-1174 | the look-ahead row comes before the native ones |
| Paging.IteratorState.Next | native/rocker/src/nif.rs:1212-1228 | returns and removes the first row of `pending` followed by the unread rows |
| Paging.IteratorState.TakePage | native/rocker/src/nif.rs:1165-1209 | the loop, with its saturating sums, returns and leaves what unbounded arithmetic would, row put back included |
| Paging.IteratorState.IteratorTake | native/rocker/src/nif.rs:1155-1210 | a page is read if and only if the options are a map of bounds in range with `max_entries`, and then under exactly those bounds; refused options leave the iterator alone and are reported with the decoder's error |
| Paging.SaturatingSumsDecide | native/rocker/src/nif.rs:1183-1203 | sums that stick at the largest `usize` reach every bound exactly when unbounded sums do |
| Paging.TakeIsLongestLegalPage | native/rocker/src/nif.rs:1170-1208 | a page is within its bounds (or one row) and no longer page would be; `more` means not empty and stopped by a bound; `end_of_iterator` means nothing is left; a native error hides exactly the rows before it |
| Paging.EveryRowExactlyOnce | native/rocker/src/nif.rs:1155-1228 | over any run of `next` and `iterator_take` calls with any options, the returned rows followed by what is left are the original rows |
| Paging.PageOfRows | native/rocker/src/nif.rs:1170-1208 | on an error-free iterator the page is a prefix, ends only with the rows or a reached bound, and `end_of_iterator` means exactly that no row is left and no bound was reached |
| Paging.DrainFollowsTakes | native/rocker/src/nif.rs:1155-1210 | each page of a drain is what the next call returns, and the last one is the first that reports the end |
| Paging.DrainIsCompleteAndShort | native/rocker/src/nif.rs:1155-1210 | repeated pages return every row, on legal pages, within one call more than there are rows |
| Paging.DrainUsesFewestPages | native/rocker/src/nif.rs:1170-1206 | no in-order split into legal pages has fewer non-empty pages, for any rows |
| Paging.DrainIsOptimalIff | native/rocker/src/nif.rs:1170-1206 | for any rows, a drain has no more non-empty pages than every in-order split whose pages keep the two bounds if and only if filling pages up to the bounds alone needs as many |
| Paging.DrainIsOptimalForPositiveRows | native/rocker/src/nif.rs:1170-1206 | for rows of positive size, also behind a first one that is empty, no in-order split whose pages keep the two bounds has fewer pages |
| Paging.EmptyRowAtEndIff | native/rocker/src/nif.rs:1198-1203 | behind such rows an empty one costs a page if and only if the last page before it has room for a row and has reached the byte bound exactly |
| Paging.EmptyRowCostsAPage | native/rocker/src/nif.rs:1198-1203 | with an empty row the last property fails: a page that fits is split in two |
| Counter.CounterMerge | native/rocker/src/merge.rs:5-32 | the result is the decimal text of the wrapped sum; whatever is not a decimal `i64` counts for nothing |
| Counter.ExactIffItFits | native/rocker/src/merge.rs:23-31 | the stored counter reads as the exact sum if and only if that sum is an `i64` |
| Counter.MergeComposes | native/rocker/src/merge.rs:5-32 | merging some operands and later the rest gives the bytes of merging them at once |
| Counter.ScheduleIndependence | native/rocker/src/options.rs:1485-1489 | any trees of partial merges and any chain of full merges give the bytes of the flat merge |
| Counter.PartialMergeIsTransparent | native/rocker/src/options.rs:1485-1489 | wherever neighbouring operands are replaced by their partial merge, the merged bytes are the same |
| Counter.PlanCountsItsLeaves | native/rocker/src/options.rs:1485-1489 | a tree of partial merges counts for the wrapped sum of the operands in it |
| Counter.NumbersAreSpelled | native/rocker/src/merge.rs:12-14 | an operand or stored value counts for n if and only if it is UTF-8 text spelling n as `i64`, untrimmed |
| Counter.OthersCountForNothing | native/rocker/src/merge.rs:10-29 | bytes that are no UTF-8 text of an `i64`, whitespace included, might as well not be there, as operand or as stored value |
| Counter.NumbersAreAdded | native/rocker/src/merge.rs:23-31 | a number is added to the stored one, or to 0 if there is none, and the text of the wrapped sum is stored |
| Counter.I64BytesRoundTrip | native/rocker/src/merge.rs:12-14 | every stored counter parses back to its value |
| Machine.WrapIgnoresPeriods | native/rocker/src/merge.rs:26 | integers a whole period apart wrap to the same value, which with the bounds on the result is two's complement |
| Machine.WrapAbsorbs | native/rocker/src/merge.rs:26 | wrapping a partial sum first does not change the wrapped sum |
| Machine.AsUsize | native/rocker/src/merge.rs:179 | a negative `i32` becomes a value of at least 2^63, any other keeps its value |
| Text.DecimalRoundTrip | native/rocker/src/merge.rs:31 | printing and parsing an integer in range is the identity |
| Text.ParsesIffSpelled | native/rocker/src/merge.rs:14 | the parsers accept exactly the numerals of integers in range, behind any zeros and at most one sign |
| Text.DigitsAreDecimal | native/rocker/src/merge.rs:14 | digits are the numeral of the value they parse to, behind zeros |
| Text.Utf8RoundTrip | native/rocker/src/merge.rs:12 | every string is decoded from its encoding |
| Text.EncodedExamples | native/rocker/src/merge.rs:12 | the encodings of four characters of one to four bytes, as in section 7 of RFC 3629 |
| Text.DecodedIsEncoded | native/rocker/src/merge.rs:12 | whatever decodes is the encoding of what it decodes to: overlong forms and surrogates are refused |
| Text.TrimPadded | native/rocker/src/merge.rs:363 | trimming removes all whitespace at the ends and nothing else |
| Bitset.MaskIsShift | native/rocker/src/merge.rs:395-405 | the eight masks are `1 << bit_index` |
| Bitset.SetChangesOnePosition | native/rocker/src/merge.rs:386-396 | setting a bit adds that one position and grows the bytes to reach it, no further |
| Bitset.ClearChangesOnePosition | native/rocker/src/merge.rs:399-407 | clearing a bit removes that one position and keeps the length |
| Bitset.BytesFromPositions | native/rocker/src/merge.rs:386-407 | bytes are determined by their length and positions |
| Bitset.BitVec.SetBit | native/rocker/src/merge.rs:386-396 | the vector becomes the one with the position set |
| Bitset.BitVec.ClearBit | native/rocker/src/merge.rs:399-407 | the vector becomes the one with the position cleared |
| Bitset.OperandMeaning | native/rocker/src/merge.rs:362-378 | with any whitespace around it, an operand sets (clears) a position if and only if it is a plus (minus) and a spelling of that position as `usize`, clears all if and only if nothing else is there, and is ignored if it is not UTF-8 |
| Bitset.BitsetMerge | native/rocker/src/merge.rs:349-383 | the result is the left fold of the decoded operands |
| Bitset.LastWriterWins | native/rocker/src/merge.rs:361-380 | a position is in the result if and only if the last operand that affects it sets it, or none does and it was there |
| Bitset.LengthIsTheHighestSet | native/rocker/src/merge.rs:365-377 | the length is what the sets since the last clear-all (or the base, if there is none) need |
| Bitset.MergeComposes | native/rocker/src/merge.rs:349-383 | merging some operands and later the rest is merging them at once |
| Bitset.PartialMergeIffCleared | native/rocker/src/options.rs:1493-1495 | merging operands among themselves is harmless on every base if and only if a clear-all follows their last set |
| Bitset.PartialSetsVanish | native/rocker/src/options.rs:1493-1495 | "+3" and "+5" are the byte 0x28, which as an operand sets nothing |
| ErlangTerms.ProcessMergeOperation | native/rocker/src/merge.rs:89-346 | the editor with its element-by-element loops computes the slices of the specification, panics included |
| ErlangTerms.IntegerOperation | native/rocker/src/merge.rs:98-115 | addition to a stored integer, wrapped into the 32-bit range |
| ErlangTerms.ListOperations | native/rocker/src/merge.rs:116-243 | what each list operation but subtraction answers on every list, for every position and range end, as slices, with the panic |
| ErlangTerms.BinaryOperations | native/rocker/src/merge.rs:244-337 | what each binary operation answers on every binary, for every position and count, as slices, with the panics |
| ErlangTerms.SubtractDropsExactly | native/rocker/src/merge.rs:149-165 | `list_subtract` answers a list without any copy of a listed element and with all copies of every other |
| ErlangTerms.SubtractDistributes | native/rocker/src/merge.rs:149-165 | and it keeps the order: subtracting from two lists in a row gives the two rests in a row |
| ErlangTerms.OperandsArePlain | native/rocker/src/merge.rs:94-345 | every operand acts as the plain one it amounts to: further elements are ignored, a range without integer end deletes nothing, other arguments make it no operation |
| ErlangTerms.AbsentCountsAsEmpty | native/rocker/src/merge.rs:118-263 | an operation edits an absent value like 0, the empty list or the empty binary |
| ErlangTerms.InsertEach | native/rocker/src/merge.rs:236-238 | inserting one element after the other is prefix, inserted elements, suffix |
| ErlangTerms.Retain | native/rocker/src/merge.rs:160-162 | the loop keeps what the specification keeps |
| ErlangTerms.WithoutDropsExactly | native/rocker/src/merge.rs:149-165 | subtraction drops every copy of a listed element and no copy of any other |
| ErlangTerms.WithoutDistributes | native/rocker/src/merge.rs:160-162 | subtraction decides element by element and keeps the order |
| ErlangTerms.OtherKindsCountAsAbsent | native/rocker/src/merge.rs:97-337 | an operation leaves the value alone or yields its own kind, and then a value of another kind counts like an absent one |
| ErlangTerms.NegativePositionsAreOutOfRange | native/rocker/src/merge.rs:258-337 | negative positions leave a binary alone, whatever the count |
| ErlangTerms.NegativeListPositionsAreOutOfRange | native/rocker/src/merge.rs:166-243 | negative positions and range ends leave a list alone |
| ErlangTerms.ErasePanicsIff | native/rocker/src/merge.rs:269-277 | `binary_erase` panics if and only if the count is negative and reaches back no further than the position, inside the binary |
| ErlangTerms.DeleteRangePanicsIff | native/rocker/src/merge.rs:202-208 | a range deletion panics if and only if it ends before it starts and starts inside the list |
| ErlangTerms.InsertThenErase | native/rocker/src/merge.rs:258-304 | erasing an insertion restores the binary, at every position |
| ErlangTerms.InsertThenDeleteRange | native/rocker/src/merge.rs:187-243 | deleting an inserted range restores the list, at every position |
| ErlangTerms.EndsAreInsertions | native/rocker/src/merge.rs:116-148 | append and prepend are insertions at the two ends, in order |
| ErlangTerms.DeleteIsRangeOfOne | native/rocker/src/merge.rs:187-219 | deleting a position is deleting the range of that position, in range or not |
| ErlangTerms.SetIsDeleteThenInsertIff | native/rocker/src/merge.rs:166-186 | at every position, negative ones included, setting is deleting and inserting if and only if the position is not just past the end |
| ErlangTerms.ReplaceIsEraseThenInsertIff | native/rocker/src/merge.rs:305-337 | for every position and count, replacing is erasing and inserting if and only if the position lies outside, nothing is inserted, or the range has both ends inside; panics included |
| ErlangTerms.ReplacePastTheEnd | native/rocker/src/merge.rs:305-337 | the failing input: two bytes of a single one are not replaced, while erasing and inserting inserts |
| ErlangTerms.ReplaceBack | native/rocker/src/merge.rs:305-337 | putting the removed bytes back undoes a replacement |
| ErlangTerms.IntAddsWrapTheTotal | native/rocker/src/merge.rs:98-115 | additions yield the 32-bit wrap of initial value plus exact total; anything but a small integer starts from 0 |
| ErlangTerms.IntAddsCommute | native/rocker/src/merge.rs:98-115 | the order of additions is irrelevant |
| ErlangTerms.FoldComposes | native/rocker/src/merge.rs:46-51 | folding some operands and then the rest is folding them all, panics included |
| ErlangTerms.EditsAreEditsOfAll | native/rocker/src/merge.rs:89-346 | an operand that does nothing to an absent value does nothing to any; any other yields its own kind (or panics), and meets a value of another kind like an absent one |
| ErlangTerms.FoldStartsWithFirstEdit | native/rocker/src/merge.rs:46-51 | without an edit nothing happens, and otherwise everything starts with the first one |
| ErlangTerms.TermIsForgottenIff | native/rocker/src/merge.rs:46-51 | operands yield the same from a term as from nothing if and only if one of them edits and, should the first that does edit the kind of that term, the rest makes both results equal |
| ErlangTerms.IntegersStayApartIff | native/rocker/src/merge.rs:98-115 | different integers come to the same result if and only if some operand edits another kind |
| ErlangTerms.IntegerIsForgottenIff | native/rocker/src/merge.rs:98-115 | an integer and nothing come to the same result if and only if some operand edits, and one that edits another kind unless the integer is zero |
| ErlangMerge.ErlangMerge | native/rocker/src/merge.rs:35-86 | the loop encodes the fold of the operands that decode, and falls back to the decimal counter when there is no term |
| ErlangMerge.MergeOneTerm | native/rocker/src/merge.rs:41-61 | one operand that is a term: the operation on what the stored bytes decode to, encoded again |
| ErlangMerge.MergeComposesIff | native/rocker/src/merge.rs:35-86 | for every base and all operands: merging in two parts is merging at once, unless (and only unless) the first part yielded a term and the second holds none, or the first held none and the second would have made something else of the stored term than of nothing |
| ErlangMerge.TermlessFirstPartIff | native/rocker/src/merge.rs:43-85 | the second case by the first operand that edits: if it edits another kind than the stored one the parts compose, if it edits that kind they compose when the rest makes both results equal, and without an edit they do not |
| ErlangMerge.TermlessFirstPartOfIntegerIff | native/rocker/src/merge.rs:43-115 | for a stored integer they compose if and only if some later operand edits, and one that edits another kind unless the integer is zero |
| ErlangMerge.TermlessFirstPartForgetsTen | native/rocker/src/merge.rs:43-85 | the failing input: 10, an operand that is no term, then "add 1" are 11 at once and 1 in two parts |
| ErlangMerge.MergeComposes | native/rocker/src/merge.rs:35-86 | streams of terms compose on any base, also through the decimal fallback and through panics |
| ErlangMerge.TermlessMergeErasesTerm | native/rocker/src/merge.rs:63-85 | operands without a term turn any stored value into a decimal string, which is no term |
| ErlangMerge.TermSurvivesIff | native/rocker/src/merge.rs:53-85 | a stored term is still a term after a merge if and only if some operand is one |
| ErlangMerge.DecimalReplacesTen | native/rocker/src/merge.rs:63-85 | the failing input: the decimal operand "5" on a stored 10 leaves the decimal "5", which is no term |
| ErlangMerge.FallbackIsNoTerm | native/rocker/src/merge.rs:85 | no decimal string decodes as a term |
| ErlangMerge.PartialMergeLosesEdits | native/rocker/src/options.rs:1490-1492 | what a partial merge leads to on every base: operands that yield a term leave a stored term as it was and turn anything else into its decimal ("0" if absent); otherwise the decimal counter is stored, over a term as well |
| ErlangMerge.PartialMergeIff | native/rocker/src/options.rs:1490-1492 | for every base and all operands, a partial merge is harmless if and only if no operand is a term, or they make nothing of nothing and no term is stored, or they make a term of nothing and leave the stored term as it is, or both panic |
| ErlangMerge.PartialMergeIsSafeIff | native/rocker/src/options.rs:1490-1492 | a partial merge that does not panic is harmless on every base if and only if no operand is a term |
| ErlangMerge.DistinguishingBase | native/rocker/src/options.rs:1490-1492 | with a term among the operands the absent value tells the two apart if they yield a term, and the integer 0 if they do not |
| ErlangMerge.PartialIntAddsVanish | native/rocker/src/options.rs:1490-1492 | two additions to 10 give 13, and 10 when they are merged with each other first |
| MergeStore.WriteEffects | native/rocker/src/nif.rs:395-428 | a put replaces, a deletion empties, a merge adds one waiting operand, and every other key keeps what it has |
| MergeStore.BatchesCompose | native/rocker/src/nif.rs:388-434 | a batch is its writes one after the other |
| MergeStore.EagerWriteEffects | native/rocker/src/nif.rs:395-428 | at once: a put replaces, a deletion removes, a merge stores the merged value |
| MergeStore.EagerBatchesCompose | native/rocker/src/nif.rs:388-434 | batches of the eager store are their writes one after the other |
| MergeStore.EventEffects | native/rocker/src/options.rs:1485-1498 | a fold puts the oldest operands into the base and leaves the others; a partial merge leaves one operand in the place of several |
| MergeStore.CollapsesAreInvisible | native/rocker/src/nif.rs:373-438 | across puts, deletes, merges and batches, a store that folds waiting operands at any time reads like one that merges at once; it may also merge neighbours with one another at any time, as far as the operator is associative for them |
| MergeStore.CounterComposes | native/rocker/src/merge.rs:5-32 | the counter meets the condition of that theorem, for all operands |
| MergeStore.BitsetComposes | native/rocker/src/merge.rs:349-383 | so does the bitset, for all operands |
| MergeStore.ErlangComposes | native/rocker/src/merge.rs:35-86 | so does the Erlang operator, for operands that are terms |
| MergeStore.CounterIsAssociative | native/rocker/src/options.rs:1485-1489 | the counter meets the condition for partial merges, for all operands |
| MergeStore.CounterStore | native/rocker/src/options.rs:1485-1489 | a counter store reads like the eager one under every schedule of folds and partial merges |
| MergeStore.BitsetIsAssociative | native/rocker/src/options.rs:1493-1495 | the bitset meets the condition for partial merges of operands that end by clearing everything, whatever stands around them |
| MergeStore.BitsetStore | native/rocker/src/options.rs:1493-1495 | a bitset store does under every schedule of folds, and of partial merges of operands that end by clearing everything |
| MergeStore.ErlangStore | native/rocker/src/options.rs:1490-1492 | so does a store of Erlang terms whose merge operands are terms |
| WriteBatches.TuplesParse | native/rocker/src/nif.rs:389-430 | the six tuples decode to the writes they stand for, in the default family or in the named one if it exists |
| WriteBatches.OnlyTuplesParse | native/rocker/src/nif.rs:389-430 | nothing else is accepted, but for elements behind those of a deletion |
| WriteBatches.Handle.constructor | test/support/durability_writer.exs:4 | opening replays the surviving log, all of which is durable |
| WriteBatches.Handle.WriteBatch | native/rocker/src/nif.rs:373-438 | the batch is applied as a whole and in order, logged unless the log is off, and makes the whole log durable on request; or nothing changes and the reply tells why; options are examined before anything else |
| OptionMaps.WriteMaps | native/rocker/src/write_options.rs:17-45 | which of the maps that callers write are accepted, and what their flags are |
| OptionMaps.DecodeWriteOptions | native/rocker/src/write_options.rs:17-45 | accepted if and only if all entries are known flags and not both `sync` and `disable_wal` hold; an error names the first rejected entry |
| OptionMaps.TakeMaps | native/rocker/src/iterator_options.rs:3-55 | which bounds are accepted: 1 to 100 000 entries, and 1 byte to 64 MiB if the bytes are bounded |
| OptionMaps.DecodeTakeOptions | native/rocker/src/iterator_options.rs:19-56 | accepted if and only if all entries are known bounds in range and `max_entries` is there; an error names the first rejected entry |
| Checkpoint.ReopenedStoreShowsReplay | test/support/durability_writer.exs:4 | the store that is reopened on a log holds exactly what the protocol reads from that log |
| Checkpoint.PutTermsParse | native/rocker/src/nif.rs:395-399 | the writer's put tuples are accepted and decode to the puts of its batch |
| Checkpoint.WriteWith | native/rocker/src/nif.rs:380-383 | a write with accepted options shows its batch, is logged unless the log is off, and syncs on request |
| Checkpoint.StepKeepsInv | @meta/@adr/ADR002-consistency-improvements.md:203-224 | every write of the protocol, for rounds of any number, and every crash keeps all that recovery relies on, for every prefix of the log |
| Checkpoint.CrashSafety | @meta/@adr/ADR002-consistency-improvements.md:217-224 | after any run with any rounds (repeated and older ones included) and any crashes, a recovered `clean:n` means that the log ends with a finished round n whose data is all there; a recovered cursor was written with, or right behind, the clean marker of its round; and it is not beyond the last clean round if no clean marker of the run was for a round behind the cursor |
| Checkpoint.NeverOvertakesIff | @meta/@adr/ADR002-consistency-improvements.md:207-211 | the cursor is at most the last clean round through every crash of a run if and only if every clean marker of the run is for a round that is not behind the cursor |
| Checkpoint.OldRoundFallsBehind | test/support/durability_writer.exs:8-26 | a writer whose round is behind the recovered cursor, which it does not read, leaves the cursor beyond the last clean round |
| Checkpoint.FailureMatrix | test/failure_matrix_test.exs:9-38 | what is recovered when the writer halts after any of its writes and a crash follows: nothing changed before the dirty marker, dirty with the old cursor before the clean marker, clean with all data from then on, the new cursor after its own write |
| Checkpoint.CrashAndReopen | test/support/durability_writer.exs:4 | a crash cuts the log of a real handle as it cuts the protocol's, and the reopened handle shows exactly the view that recovery is stated about |
| Checkpoint.UnfinishedRoundIsDirty | @meta/@adr/ADR002-consistency-improvements.md:217-224 | a crash between dirty and clean is recovered as dirty, whatever it keeps |
| Checkpoint.CleanedRoundIsDurable | @meta/@adr/ADR002-consistency-improvements.md:213-215 | once the clean marker is written no crash loses it or any of the unsynced data before it |
| Checkpoint.DurablePrefixSurvives | test/support/durability_writer.exs:8-26 | what one synced write made durable is in the log after all later steps and crashes |
| Checkpoint.RecoveredKeys | test/support/durability_writer.exs:21-26 | the recovered marker and cursor are those of the last surviving records of their kind |
| Checkpoint.WriteStep | test/support/durability_writer.exs:8-26 | one write of the writer is one step of the protocol |
| Checkpoint.RunWriter | test/support/durability_writer.exs:6-26 | the writer, with a round of any number and halted after any number of writes, has taken that many steps of its round, in order |
| Checkpoint.UnloggedDataIsLost | @meta/@adr/ADR002-consistency-improvements.md:226 | for every projection batch written with the log off in a whole round, the running database has the data, and the reopened one has the clean marker, the cursor, and the projection as it was before the round |
| DbOptions.ValidateIff | native/rocker/src/options.rs:932-1019 | options pass if and only if every present choice names an alternative, in any case and with any whitespace around it, the multipliers all spell `i32`s, and the rate limiter spells three `i64`s of which the third is an `i32`; otherwise the first failing option, in the order of validation, is named |
| DbOptions.JoinSplit | native/rocker/src/options.rs:982-985 | splitting at commas loses nothing |
| DbOptions.LenientIsLosslessIff | native/rocker/src/options.rs:1285-1290 | the lenient parse keeps every element in its place if and only if every part parses |
| DbOptions.Convert | native/rocker/src/options.rs:1021-1498 | for validated options the setters give every present choice the alternative it names and every list all its elements |
| DbOptions.AcceptedNamesConvert | native/rocker/src/options.rs:933-978 | every accepted name converts to the alternative of that name |
| DbOptions.ValidConversionIsLossless | native/rocker/src/options.rs:932-1005 | for validated options no fallback alternative is used, no list element is lost, and the rate limiter is set without truncation |

## Left out

- RocksDB itself: keys and families are a map, an iterator is a finite sequence of rows and errors with sticky exhaustion, the log is a sequence of batches.
- Encoding of NIF terms, dirty schedulers, allocation failures, lock poisoning and weak memory (all atomics are sequentially consistent).
- Reference counting of resources: a destructor starts only when nothing refers to the resource, which is what the runtime guarantees.
- The transition system of `Lease` is on values, so aliasing between threads is expressed by its steps; the class `DbResource` has the shared fields.
- Lease.DbResource.Close: is about a `close` in which no other thread steps in between; interleavings are covered by `NothingDangles`, `CloseIsBusyIffLeased` and `RaceOutcomes`.
- Taking a read or write guard and looking whether the database is present is one step, because nothing can change it in between.
- Calls that fail before they take any guard (undecodable arguments) and the failure of a native read; neither touches a guard or a lease afterwards.
- The External Term Format codec is a parameter: encoding succeeds, decoding undoes it, and whatever decodes begins with byte 131. Terms that no operation looks into are opaque, and term equality is structural, which differs for floats.
- A panic of the Erlang operator ends the merge; what the store then keeps is not part of this model beyond carrying the panic on.
- Paging.EveryRowExactlyOnce: is for error-free iterators; `TakeIsLongestLegalPage` says which rows an error hides.
- Paging.DrainIsOptimalForPositiveRows: is for at most one empty row in front; `EmptyRowAtEndIff` has the condition for one behind the others, and `DrainIsOptimalIff` a computed one for any rows.
- MergeStore.ErlangStore: has no partial merges, for which `ErlangMerge.PartialMergeIff` depends on the stored value.
- Checkpoint.CrashSafety: assumes that projection batches do not write the two protocol keys, and that the log stays on.
- The writer's start: the database has been opened, and a halt is a number of writes after which it stops.
- `flush_wal`, and a `close` of the database after the cursor write, which change no record.
- Lowercasing is a parameter of `Validate` and `Convert`.
- The option fields that are copied one by one, and the native meaning of each option.
- Overflow checks of debug builds, and memory exhausted by very large bit positions.
