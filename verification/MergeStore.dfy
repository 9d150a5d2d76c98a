/**
Merging as the store schedules it: operands wait beside a base value. At any time
the oldest may be folded into it, and neighbours may be merged with one another.
*/
module MergeStore {
  import opened Wrappers
  import opened Text
  import Counter
  import Bitset
  import ErlangMerge

  /** A full merge: the stored value and the waiting operands give the new stored value. */
  type MergeFunction<!V, !O> = (Option<V>, seq<O>) -> V

  /** A partial merge: neighbouring operands give one operand. */
  type PartialMerge<!O> = seq<O> -> O

  datatype Operation<V, O> = Put(value: V) | Delete | Merge(operand: O)

  datatype Write<K, V, O> = Write(key: K, operation: Operation<V, O>)

  ghost predicate AllOk<O>(ok: O -> bool, operands: seq<O>) {
    forall i :: 0 <= i < |operands| ==> ok(operands[i])
  }

  /** Folding a non-empty prefix first makes no difference, for operands that are `ok`. */
  ghost predicate Composes<V(!new), O(!new)>(merge: MergeFunction<V, O>, ok: O -> bool) {
    forall base: Option<V>, xs: seq<O>, ys: seq<O> ::
      xs != [] && ys != [] && AllOk(ok, xs) && AllOk(ok, ys) ==>
        merge(base, xs + ys) == merge(Some(merge(base, xs)), ys)
  }

  function Between<O>(xs: seq<O>, ys: seq<O>, zs: seq<O>): seq<O> {
    xs + ys + zs
  }

  /** Merging neighbours with one another first makes no difference either, for neighbours that are `fine`. */
  ghost predicate Associative<V(!new), O(!new)>(
      merge: MergeFunction<V, O>, partial: PartialMerge<O>, ok: O -> bool, fine: seq<O> -> bool)
  {
    && (forall ys: seq<O> :: ys != [] && AllOk(ok, ys) && fine(ys) ==> ok(partial(ys)))
    && forall base: Option<V>, xs: seq<O>, ys: seq<O>, zs: seq<O> ::
      ys != [] && AllOk(ok, xs) && AllOk(ok, ys) && AllOk(ok, zs) && fine(ys) ==>
        merge(base, Between(xs, [partial(ys)], zs)) == merge(base, Between(xs, ys, zs))
  }

  // ---------- the store that waits, and the one that does not ----------

  datatype Cell<V, O> = Cell(base: Option<V>, waiting: seq<O>)

  function CellAt<K, V, O>(cells: map<K, Cell<V, O>>, key: K): Cell<V, O> {
    if key in cells then cells[key] else Cell(None, [])
  }

  function Read<K, V, O>(cells: map<K, Cell<V, O>>, merge: MergeFunction<V, O>, key: K): Option<V> {
    var cell := CellAt(cells, key);
    if cell.waiting == [] then cell.base else Some(merge(cell.base, cell.waiting))
  }

  function ValueAt<K, V>(values: map<K, V>, key: K): Option<V> {
    if key in values then Some(values[key]) else None
  }

  /** The waiting store: a merge only queues its operand. */
  function WriteLazily<K, V, O>(cells: map<K, Cell<V, O>>, w: Write<K, V, O>): map<K, Cell<V, O>> {
    match w.operation
    case Put(v) => cells[w.key := Cell(Some(v), [])]
    case Delete => cells[w.key := Cell(None, [])]
    case Merge(operand) =>
      var cell := CellAt(cells, w.key);
      cells[w.key := Cell(cell.base, cell.waiting + [operand])]
  }

  /** The eager store: a merge computes the new value at once. */
  function WriteEagerly<K, V, O>(values: map<K, V>, merge: MergeFunction<V, O>, w: Write<K, V, O>): map<K, V> {
    match w.operation
    case Put(v) => values[w.key := v]
    case Delete => values - {w.key}
    case Merge(operand) => values[w.key := merge(ValueAt(values, w.key), [operand])]
  }

  function BatchLazily<K, V, O>(cells: map<K, Cell<V, O>>, batch: seq<Write<K, V, O>>): map<K, Cell<V, O>> {
    if batch == [] then cells
    else WriteLazily(BatchLazily(cells, batch[..|batch| - 1]), batch[|batch| - 1])
  }

  function BatchEagerly<K, V, O>(values: map<K, V>, merge: MergeFunction<V, O>, batch: seq<Write<K, V, O>>): map<K, V> {
    if batch == [] then values
    else WriteEagerly(BatchEagerly(values, merge, batch[..|batch| - 1]), merge, batch[|batch| - 1])
  }

  /** A put replaces, a deletion empties, a merge adds one waiting operand; other keys keep what they have. */
  lemma WriteEffects<K, V, O>(cells: map<K, Cell<V, O>>, key: K, v: V, operand: O, other: K)
    requires other != key
    ensures CellAt(BatchLazily(cells, [Write(key, Put(v))]), key) == Cell(Some(v), [])
    ensures CellAt(BatchLazily(cells, [Write(key, Delete)]), key) == Cell(None, [])
    ensures CellAt(BatchLazily(cells, [Write(key, Merge(operand))]), key)
            == Cell(CellAt(cells, key).base, CellAt(cells, key).waiting + [operand])
    ensures forall operation: Operation<V, O> ::
              CellAt(BatchLazily(cells, [Write(key, operation)]), other) == CellAt(cells, other)
  {
    forall operation: Operation<V, O>
      ensures BatchLazily(cells, [Write(key, operation)]) == WriteLazily(cells, Write(key, operation))
    {
      assert [Write(key, operation)][..0] == [];
    }
  }

  /** A batch is its writes one after the other. */
  lemma {:induction false} BatchesCompose<K, V, O>(
      cells: map<K, Cell<V, O>>, first: seq<Write<K, V, O>>, second: seq<Write<K, V, O>>)
    ensures BatchLazily(cells, first + second) == BatchLazily(BatchLazily(cells, first), second)
  {
    if second == [] {
      assert first + second == first;
    } else {
      var n := |second| - 1;
      assert (first + second)[..|first + second| - 1] == first + second[..n];
      BatchesCompose(cells, first, second[..n]);
    }
  }

  /** The eager store: a put replaces, a deletion removes, a merge stores the merged value. */
  lemma EagerWriteEffects<K, V, O>(values: map<K, V>, merge: MergeFunction<V, O>, key: K, v: V, operand: O, other: K)
    requires other != key
    ensures ValueAt(BatchEagerly(values, merge, [Write(key, Put(v))]), key) == Some(v)
    ensures ValueAt(BatchEagerly(values, merge, [Write(key, Delete)]), key) == None
    ensures ValueAt(BatchEagerly(values, merge, [Write(key, Merge(operand))]), key)
            == Some(merge(ValueAt(values, key), [operand]))
    ensures forall operation: Operation<V, O> ::
              ValueAt(BatchEagerly(values, merge, [Write(key, operation)]), other) == ValueAt(values, other)
  {
    forall operation: Operation<V, O>
      ensures BatchEagerly(values, merge, [Write(key, operation)]) == WriteEagerly(values, merge, Write(key, operation))
    {
      assert [Write(key, operation)][..0] == [];
    }
  }

  lemma {:induction false} EagerBatchesCompose<K, V, O>(
      values: map<K, V>, merge: MergeFunction<V, O>, first: seq<Write<K, V, O>>, second: seq<Write<K, V, O>>)
    ensures BatchEagerly(values, merge, first + second)
            == BatchEagerly(BatchEagerly(values, merge, first), merge, second)
  {
    if second == [] {
      assert first + second == first;
    } else {
      var n := |second| - 1;
      assert (first + second)[..|first + second| - 1] == first + second[..n];
      EagerBatchesCompose(values, merge, first, second[..n]);
    }
  }

  /**
  What happens to the store: a batch of writes, the folding of the oldest operands
  of a key into its base, or a partial merge of some of its waiting operands.
  */
  datatype Event<K, V, O> =
    | Batch(writes: seq<Write<K, V, O>>)
    | Collapse(key: K, count: nat)
    | Combine(key: K, from: nat, to: nat)

  function Collapsed<K, V, O>(
      cells: map<K, Cell<V, O>>, merge: MergeFunction<V, O>, key: K, count: nat): map<K, Cell<V, O>>
  {
    var cell := CellAt(cells, key);
    if 0 < count <= |cell.waiting| then
      cells[key := Cell(Some(merge(cell.base, cell.waiting[..count])), cell.waiting[count..])]
    else cells
  }

  function Combined<K, V, O>(
      cells: map<K, Cell<V, O>>, partial: PartialMerge<O>, key: K, from: nat, to: nat): map<K, Cell<V, O>>
  {
    var Cell(base, waiting) := CellAt(cells, key);
    if from < to <= |waiting| then
      cells[key := Cell(base, Between(waiting[..from], [partial(waiting[from..to])], waiting[to..]))]
    else cells
  }

  function RunLazily<K, V, O>(
      cells: map<K, Cell<V, O>>, merge: MergeFunction<V, O>, partial: PartialMerge<O>, run: seq<Event<K, V, O>>)
      : map<K, Cell<V, O>>
  {
    if run == [] then cells
    else
      var before := RunLazily(cells, merge, partial, run[..|run| - 1]);
      match run[|run| - 1]
      case Batch(writes) => BatchLazily(before, writes)
      case Collapse(key, count) => Collapsed(before, merge, key, count)
      case Combine(key, from, to) => Combined(before, partial, key, from, to)
  }

  /**
  A fold puts the oldest operands into the base and leaves the others waiting; a
  partial merge leaves the base and one operand in the place of several.
  */
  lemma EventEffects<K, V, O>(
      cells: map<K, Cell<V, O>>, merge: MergeFunction<V, O>, partial: PartialMerge<O>,
      key: K, base: Option<V>, xs: seq<O>, ys: seq<O>, zs: seq<O>, other: K)
    requires ys != [] && other != key && CellAt(cells, key) == Cell(base, xs + ys + zs)
    ensures var folded := RunLazily(cells, merge, partial, [Collapse(key, |xs + ys|)]);
            CellAt(folded, key) == Cell(Some(merge(base, xs + ys)), zs) && CellAt(folded, other) == CellAt(cells, other)
    ensures var combined := RunLazily(cells, merge, partial, [Combine(key, |xs|, |xs + ys|)]);
            && CellAt(combined, key) == Cell(base, xs + [partial(ys)] + zs)
            && CellAt(combined, other) == CellAt(cells, other)
  {
    var waiting := xs + ys + zs;
    assert waiting[..|xs + ys|] == xs + ys && waiting[|xs + ys|..] == zs;
    assert waiting[..|xs|] == xs && waiting[|xs|..|xs + ys|] == ys;
    var collapse: seq<Event<K, V, O>>, combine: seq<Event<K, V, O>> :=
      [Collapse(key, |xs + ys|)], [Combine(key, |xs|, |xs + ys|)];
    assert collapse[..0] == [] && combine[..0] == [];
  }

  /** The eager store sees the same writes and nothing else. */
  function RunEagerly<K, V, O>(values: map<K, V>, merge: MergeFunction<V, O>, run: seq<Event<K, V, O>>): map<K, V> {
    if run == [] then values
    else
      var before := RunEagerly(values, merge, run[..|run| - 1]);
      match run[|run| - 1]
      case Batch(writes) => BatchEagerly(before, merge, writes)
      case Collapse(_, _) => before
      case Combine(_, _, _) => before
  }

  ghost predicate WritesOk<K(!new), V(!new), O>(ok: O -> bool, batch: seq<Write<K, V, O>>) {
    forall i :: 0 <= i < |batch| && batch[i].operation.Merge? ==> ok(batch[i].operation.operand)
  }

  ghost predicate RunOk<K(!new), V(!new), O>(ok: O -> bool, run: seq<Event<K, V, O>>) {
    forall i :: 0 <= i < |run| && run[i].Batch? ==> WritesOk(ok, run[i].writes)
  }

  /** Whatever neighbours the run merges with one another are `fine` when it does. */
  ghost predicate CombinesFine<K, V, O>(
      merge: MergeFunction<V, O>, partial: PartialMerge<O>, fine: seq<O> -> bool, run: seq<Event<K, V, O>>)
  {
    run != [] ==>
      && var front, last := run[..|run| - 1], run[|run| - 1];
      && CombinesFine(merge, partial, fine, front)
      && (last.Combine? ==>
            var waiting := CellAt(RunLazily(map[], merge, partial, front), last.key).waiting;
            last.from < last.to <= |waiting| ==> fine(waiting[last.from..last.to]))
  }

  ghost predicate NoCombine<K(!new), V(!new), O>(run: seq<Event<K, V, O>>) {
    forall i :: 0 <= i < |run| ==> !run[i].Combine?
  }

  lemma {:induction false} FineWithoutCombine<K(!new), V(!new), O(!new)>(
      merge: MergeFunction<V, O>, partial: PartialMerge<O>, fine: seq<O> -> bool, run: seq<Event<K, V, O>>)
    requires NoCombine(run)
    ensures CombinesFine(merge, partial, fine, run)
  {
    if run != [] {
      FineWithoutCombine(merge, partial, fine, run[..|run| - 1]);
    }
  }

  lemma {:induction false} FineIfAllAre<K(!new), V(!new), O(!new)>(
      merge: MergeFunction<V, O>, partial: PartialMerge<O>, fine: seq<O> -> bool, run: seq<Event<K, V, O>>)
    requires forall ys :: fine(ys)
    ensures CombinesFine(merge, partial, fine, run)
  {
    if run != [] {
      FineIfAllAre(merge, partial, fine, run[..|run| - 1]);
    }
  }

  /** Both stores read alike, and every waiting operand is `ok`. */
  ghost predicate Agree<K(!new), V(!new), O>(
      cells: map<K, Cell<V, O>>, values: map<K, V>, merge: MergeFunction<V, O>, ok: O -> bool)
  {
    forall key :: AllOk(ok, CellAt(cells, key).waiting) && Read(cells, merge, key) == ValueAt(values, key)
  }

  lemma WriteKeepsAgreement<K(!new), V(!new), O(!new)>(
      cells: map<K, Cell<V, O>>, values: map<K, V>, merge: MergeFunction<V, O>, ok: O -> bool, w: Write<K, V, O>)
    requires Composes(merge, ok) && Agree(cells, values, merge, ok)
    requires w.operation.Merge? ==> ok(w.operation.operand)
    ensures Agree(WriteLazily(cells, w), WriteEagerly(values, merge, w), merge, ok)
  {
    var cells', values' := WriteLazily(cells, w), WriteEagerly(values, merge, w);
    forall key ensures AllOk(ok, CellAt(cells', key).waiting) && Read(cells', merge, key) == ValueAt(values', key) {
      assert AllOk(ok, CellAt(cells, key).waiting) && Read(cells, merge, key) == ValueAt(values, key);
      if key == w.key && w.operation.Merge? {
        var cell, added := CellAt(cells, key), [w.operation.operand];
        if cell.waiting == [] {
          assert cell.waiting + added == added;
        } else {
          assert AllOk(ok, added);
          assert merge(cell.base, cell.waiting + added) == merge(Some(merge(cell.base, cell.waiting)), added);
        }
      }
    }
  }

  lemma {:induction false} BatchKeepsAgreement<K(!new), V(!new), O(!new)>(
      cells: map<K, Cell<V, O>>, values: map<K, V>, merge: MergeFunction<V, O>, ok: O -> bool,
      batch: seq<Write<K, V, O>>)
    requires Composes(merge, ok) && Agree(cells, values, merge, ok) && WritesOk(ok, batch)
    ensures Agree(BatchLazily(cells, batch), BatchEagerly(values, merge, batch), merge, ok)
  {
    if batch != [] {
      var front := batch[..|batch| - 1];
      BatchKeepsAgreement(cells, values, merge, ok, front);
      WriteKeepsAgreement(BatchLazily(cells, front), BatchEagerly(values, merge, front), merge, ok, batch[|batch| - 1]);
    }
  }

  lemma CollapseKeepsAgreement<K(!new), V(!new), O(!new)>(
      cells: map<K, Cell<V, O>>, values: map<K, V>, merge: MergeFunction<V, O>, ok: O -> bool, key: K, count: nat)
    requires Composes(merge, ok) && Agree(cells, values, merge, ok)
    ensures Agree(Collapsed(cells, merge, key, count), values, merge, ok)
  {
    var cells' := Collapsed(cells, merge, key, count);
    forall k ensures AllOk(ok, CellAt(cells', k).waiting) && Read(cells', merge, k) == ValueAt(values, k) {
      assert AllOk(ok, CellAt(cells, k).waiting) && Read(cells, merge, k) == ValueAt(values, k);
      var cell := CellAt(cells, k);
      if k == key && 0 < count <= |cell.waiting| {
        var xs, ys := cell.waiting[..count], cell.waiting[count..];
        assert cell.waiting == xs + ys;
        if ys == [] {
          assert xs == cell.waiting;
        } else {
          assert AllOk(ok, xs) && AllOk(ok, ys);
          assert merge(cell.base, xs + ys) == merge(Some(merge(cell.base, xs)), ys);
        }
      }
    }
  }

  lemma CombineKeepsAgreement<K(!new), V(!new), O(!new)>(
      cells: map<K, Cell<V, O>>, values: map<K, V>, merge: MergeFunction<V, O>, partial: PartialMerge<O>, ok: O -> bool,
      fine: seq<O> -> bool, key: K, from: nat, to: nat)
    requires Associative(merge, partial, ok, fine) && Agree(cells, values, merge, ok)
    requires var waiting := CellAt(cells, key).waiting; from < to <= |waiting| ==> fine(waiting[from..to])
    ensures Agree(Combined(cells, partial, key, from, to), values, merge, ok)
  {
    var cells' := Combined(cells, partial, key, from, to);
    forall k ensures AllOk(ok, CellAt(cells', k).waiting) && Read(cells', merge, k) == ValueAt(values, k) {
      assert AllOk(ok, CellAt(cells, k).waiting) && Read(cells, merge, k) == ValueAt(values, k);
      var Cell(base, waiting) := CellAt(cells, k);
      if k == key && from < to <= |waiting| {
        var xs, ys, zs := waiting[..from], waiting[from..to], waiting[to..];
        assert waiting == Between(xs, ys, zs);
        assert AllOk(ok, xs) && AllOk(ok, ys) && AllOk(ok, zs);
        assert merge(base, Between(xs, [partial(ys)], zs)) == merge(base, Between(xs, ys, zs));
        assert AllOk(ok, Between(xs, [partial(ys)], zs));
      }
    }
  }

  /**
  Whenever and however far the store collapses, every read is the read of the
  eager store; so it is after partial merges of neighbours for which the operator
  is associative.
  */
  lemma {:induction false} CollapsesAreInvisible<K(!new), V(!new), O(!new)>(
      merge: MergeFunction<V, O>, partial: PartialMerge<O>, ok: O -> bool, fine: seq<O> -> bool,
      run: seq<Event<K, V, O>>, key: K)
    requires Composes(merge, ok) && RunOk(ok, run)
    requires Associative(merge, partial, ok, fine) && CombinesFine(merge, partial, fine, run)
    ensures Read(RunLazily(map[], merge, partial, run), merge, key) == ValueAt(RunEagerly(map[], merge, run), key)
  {
    RunKeepsAgreement<K, V, O>(merge, partial, ok, fine, run);
    assert Agree(RunLazily(map[], merge, partial, run), RunEagerly(map[], merge, run), merge, ok);
  }

  lemma {:induction false} RunKeepsAgreement<K(!new), V(!new), O(!new)>(
      merge: MergeFunction<V, O>, partial: PartialMerge<O>, ok: O -> bool, fine: seq<O> -> bool,
      run: seq<Event<K, V, O>>)
    requires Composes(merge, ok) && RunOk(ok, run)
    requires Associative(merge, partial, ok, fine) && CombinesFine(merge, partial, fine, run)
    ensures Agree(RunLazily(map[], merge, partial, run), RunEagerly(map[], merge, run), merge, ok)
  {
    hide Agree, Composes, Associative;
    if run == [] {
      NothingAgrees<K, V, O>(merge, ok);
    } else {
      var front, last := run[..|run| - 1], run[|run| - 1];
      RunKeepsAgreement(merge, partial, ok, fine, front);
      var cells, values := RunLazily(map[], merge, partial, front), RunEagerly(map[], merge, front);
      match last
      case Batch(writes) => BatchKeepsAgreement(cells, values, merge, ok, writes);
      case Collapse(key, count) => CollapseKeepsAgreement(cells, values, merge, ok, key, count);
      case Combine(key, from, to) => CombineKeepsAgreement(cells, values, merge, partial, ok, fine, key, from, to);
    }
  }

  lemma NothingAgrees<K(!new), V(!new), O(!new)>(merge: MergeFunction<V, O>, ok: O -> bool)
    ensures Agree<K, V, O>(map[], map[], merge, ok)
  {
  }

  // ---------- the three operators ----------

  lemma CounterComposes()
    ensures Composes<Bytes, Bytes>(Counter.Merged, _ => true)
  {
    hide Counter.Merged;
    forall base, xs, ys ensures Counter.Merged(base, xs + ys) == Counter.Merged(Some(Counter.Merged(base, xs)), ys) {
      Counter.MergeComposes(base, xs, ys);
    }
  }

  lemma BitsetComposes()
    ensures Composes<Bytes, Bytes>(Bitset.Merged, _ => true)
  {
    hide Bitset.Merged;
    forall base, xs, ys ensures Bitset.Merged(base, xs + ys) == Bitset.Merged(Some(Bitset.Merged(base, xs)), ys) {
      Bitset.MergeComposes(base, xs, ys);
    }
  }

  /** The Erlang operator over stored values that may be the aftermath of a panic. */
  function ErlangFunction(codec: ErlangMerge.Codec): MergeFunction<ErlangMerge.Merge, Bytes> {
    (base: Option<ErlangMerge.Merge>, operands) =>
      if base.None? then ErlangMerge.Merged(codec, None, operands)
      else ErlangMerge.Then(codec, base.value, operands)
  }

  /** Only operands that decode as terms: a decimal operand would be lost by an earlier collapse. */
  lemma ErlangComposes(codec: ErlangMerge.Codec)
    requires codec.Valid()
    ensures Composes(ErlangFunction(codec), (b: Bytes) => codec.decode(b).Some?)
  {
    hide ErlangMerge.Merged;
    var merge, ok := ErlangFunction(codec), (b: Bytes) => codec.decode(b).Some?;
    forall base: Option<ErlangMerge.Merge>, xs: seq<Bytes>, ys: seq<Bytes>
      | xs != [] && ys != [] && AllOk(ok, xs) && AllOk(ok, ys)
      ensures merge(base, xs + ys) == merge(Some(merge(base, xs)), ys)
    {
      if base.None? {
        ErlangMerge.MergeComposes(codec, None, xs, ys);
      } else if base.value.Stored? {
        ErlangMerge.MergeComposes(codec, Some(base.value.bytes), xs, ys);
      }
    }
  }

  /** The operator itself, without a base, makes the store's partial merges. */
  function CounterPartial(): PartialMerge<Bytes> {
    (operands: seq<Bytes>) => Counter.Merged(None, operands)
  }

  lemma CounterIsAssociative()
    ensures Associative<Bytes, Bytes>(Counter.Merged, CounterPartial(), _ => true, _ => true)
  {
    hide Counter.Merged;
    forall base, xs, ys, zs
      ensures Counter.Merged(base, Between(xs, [Counter.Merged(None, ys)], zs))
              == Counter.Merged(base, Between(xs, ys, zs))
    {
      Counter.PartialMergeIsTransparent(base, xs, ys, zs);
    }
  }

  /** A counter store reads like the eager one whatever it folds or partially merges, and whenever. */
  lemma CounterStore<K(!new)>(run: seq<Event<K, Bytes, Bytes>>, key: K)
    ensures Read(RunLazily(map[], Counter.Merged, CounterPartial(), run), Counter.Merged, key)
            == ValueAt(RunEagerly(map[], Counter.Merged, run), key)
  {
    hide Counter.Merged, CounterPartial, RunLazily, RunEagerly, Read, Composes, Associative, CombinesFine;
    CounterComposes();
    CounterIsAssociative();
    FineIfAllAre(Counter.Merged, CounterPartial(), _ => true, run);
    CollapsesAreInvisible(Counter.Merged, CounterPartial(), _ => true, _ => true, run, key);
  }

  function BitsetPartial(): PartialMerge<Bytes> {
    (operands: seq<Bytes>) => Bitset.Merged(None, operands)
  }

  ghost function EndCleared(): seq<Bytes> -> bool {
    (operands: seq<Bytes>) => Bitset.EndsCleared(operands)
  }

  /** For neighbours that end by clearing everything. */
  lemma BitsetIsAssociative()
    ensures Associative<Bytes, Bytes>(Bitset.Merged, BitsetPartial(), _ => true, EndCleared())
  {
    hide Bitset.Merged, Bitset.EndsCleared;
    forall base: Option<Bytes>, xs: seq<Bytes>, ys: seq<Bytes>, zs: seq<Bytes> | Bitset.EndsCleared(ys)
      ensures Bitset.Merged(base, Between(xs, [Bitset.Merged(None, ys)], zs))
              == Bitset.Merged(base, Between(xs, ys, zs))
    {
      var partial := [Bitset.Merged(None, ys)];
      Bitset.PartialMergeIffCleared(ys);
      var before := Some(Bitset.Merged(base, xs));
      assert Bitset.Merged(before, partial) == Bitset.Merged(before, ys);
      Bitset.MergeComposes(base, xs, partial);
      Bitset.MergeComposes(base, xs, ys);
      Bitset.MergeComposes(base, xs + partial, zs);
      Bitset.MergeComposes(base, xs + ys, zs);
    }
  }

  /** So does a bitset store whose partial merges are of neighbours that end by clearing everything. */
  lemma BitsetStore<K(!new)>(run: seq<Event<K, Bytes, Bytes>>, key: K)
    requires CombinesFine(Bitset.Merged, BitsetPartial(), EndCleared(), run)
    ensures Read(RunLazily(map[], Bitset.Merged, BitsetPartial(), run), Bitset.Merged, key)
            == ValueAt(RunEagerly(map[], Bitset.Merged, run), key)
  {
    hide Bitset.Merged, BitsetPartial, EndCleared, RunLazily, RunEagerly, Read, Composes, Associative, CombinesFine;
    BitsetComposes();
    BitsetIsAssociative();
    CollapsesAreInvisible(Bitset.Merged, BitsetPartial(), _ => true, EndCleared(), run, key);
  }

  lemma NothingFineIsAssociative<V(!new), O(!new)>(
      merge: MergeFunction<V, O>, partial: PartialMerge<O>, ok: O -> bool)
    ensures Associative(merge, partial, ok, _ => false)
  {
  }

  /** So does a store of Erlang terms without partial merges, if every merge operand is a term. */
  lemma ErlangStore<K(!new)>(
      codec: ErlangMerge.Codec, partial: PartialMerge<Bytes>, run: seq<Event<K, ErlangMerge.Merge, Bytes>>, key: K)
    requires codec.Valid() && NoCombine(run) && RunOk((b: Bytes) => codec.decode(b).Some?, run)
    ensures Read(RunLazily(map[], ErlangFunction(codec), partial, run), ErlangFunction(codec), key)
            == ValueAt(RunEagerly(map[], ErlangFunction(codec), run), key)
  {
    hide ErlangFunction, RunLazily, RunEagerly, Read, Composes, Associative, CombinesFine;
    var merge, ok := ErlangFunction(codec), (b: Bytes) => codec.decode(b).Some?;
    ErlangComposes(codec);
    NothingFineIsAssociative(merge, partial, ok);
    FineWithoutCombine(merge, partial, _ => false, run);
    CollapsesAreInvisible(merge, partial, ok, _ => false, run, key);
  }
}
