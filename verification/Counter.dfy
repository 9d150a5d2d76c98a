/** The decimal counter merge operator (`counter_merge`). */
module Counter {
  import opened Wrappers
  import opened Text
  import opened Machine

  /** `from_utf8(bytes).ok().and_then(|s| s.parse::<i64>().ok())` */
  function ParseI64(b: Bytes): (r: Option<int>)
    ensures r.Some? ==> I64_MIN <= r.value <= I64_MAX
  {
    match FromUtf8(b)
    case None => None
    case Some(s) => ParseSigned(s, I64_MIN, I64_MAX)
  }

  /** Exactly the spellings of an `i64` are numbers; surrounding whitespace is not trimmed. */
  lemma NumbersAreSpelled(b: Bytes, n: int)
    ensures ParseI64(b) == Some(n) <==>
              FromUtf8(b).Some? && I64_MIN <= n <= I64_MAX && Spells(FromUtf8(b).value, n)
  {
    hide FromUtf8, ParseSigned, Spells;
    if FromUtf8(b).Some? {
      ParsesIffSpelled(FromUtf8(b).value, n, I64_MIN, I64_MAX);
    }
  }

  function I64Bytes(n: int): Bytes {
    DecimalIsAscii(n);
    AsciiBytes(Decimal(n))
  }

  lemma I64BytesRoundTrip(n: int)
    requires I64_MIN <= n <= I64_MAX
    ensures ParseI64(I64Bytes(n)) == Some(n)
  {
    hide FromUtf8, ParseSigned, Decimal, AsciiBytes;
    DecimalIsAscii(n);
    AsciiRoundTrip(Decimal(n));
    DecimalRoundTrip(n, I64_MIN, I64_MAX);
  }

  lemma I64BytesAreAscii(n: int)
    ensures I64Bytes(n) != [] && I64Bytes(n)[0] < 0x80
  {
    hide Decimal;
    DecimalIsAscii(n);
    assert I64Bytes(n)[0] == Decimal(n)[0] as int;
  }

  /** What an operand or a stored value counts for: anything malformed counts for nothing. */
  function Number(b: Bytes): (n: int)
    ensures I64_MIN <= n <= I64_MAX
  {
    match ParseI64(b)
    case Some(n) => n
    case None => 0
  }

  function BaseNumber(base: Option<Bytes>): int {
    if base.Some? then Number(base.value) else 0
  }

  /** The unbounded sum of the operands. */
  function Sum(operands: seq<Bytes>): int {
    if operands == [] then 0
    else Sum(operands[..|operands| - 1]) + Number(operands[|operands| - 1])
  }

  function Merged(base: Option<Bytes>, operands: seq<Bytes>): Bytes {
    I64Bytes(Wrap64(BaseNumber(base) + Sum(operands)))
  }

  method CounterMerge(existing: Option<Bytes>, operands: seq<Bytes>) returns (merged: Option<Bytes>)
    ensures merged == Some(Merged(existing, operands))
  {
    hide ParseI64, I64Bytes;
    var result := 0;
    if existing.Some? {
      var parsed := ParseI64(existing.value);
      if parsed.Some? {
        result := parsed.value;
      }
    }
    for i := 0 to |operands|
      invariant result == Wrap64(BaseNumber(existing) + Sum(operands[..i]))
    {
      assert operands[..i + 1][..i] == operands[..i];
      var parsed := ParseI64(operands[i]);
      if parsed.Some? {
        WrapAbsorbs(BaseNumber(existing) + Sum(operands[..i]), parsed.value, TWO63);
        result := Wrap64(result + parsed.value);
      }
    }
    assert operands[..|operands|] == operands;
    return Some(I64Bytes(result));
  }

  /** The stored counter is the exact sum precisely when that sum is an `i64`. */
  lemma ExactIffItFits(base: Option<Bytes>, operands: seq<Bytes>)
    ensures var total := BaseNumber(base) + Sum(operands);
            ParseI64(Merged(base, operands)) == Some(total) <==> I64_MIN <= total <= I64_MAX
  {
    hide ParseI64, I64Bytes, Sum, BaseNumber;
    I64BytesRoundTrip(Wrap64(BaseNumber(base) + Sum(operands)));
  }

  // ---------- what texts count for ----------

  /** Bytes that are UTF-8 text for an `i64`, with nothing around it. */
  ghost predicate IsNumber(b: Bytes, n: int) {
    FromUtf8(b).Some? && I64_MIN <= n <= I64_MAX && Spells(FromUtf8(b).value, n)
  }

  /** Anything else might as well not be there, as an operand or as the stored value. */
  lemma OthersCountForNothing(base: Option<Bytes>, xs: seq<Bytes>, b: Bytes, ys: seq<Bytes>)
    requires forall n :: !IsNumber(b, n)
    ensures Merged(base, xs + [b] + ys) == Merged(base, xs + ys)
    ensures Merged(Some(b), xs) == Merged(None, xs)
  {
    hide ParseI64, I64Bytes, Sum, Wrap64;
    assert ParseI64(b) == None by {
      forall n {
        NumbersAreSpelled(b, n);
      }
      assert forall n :: ParseI64(b) == Some(n) ==> IsNumber(b, n);
    }
    SumOne(b);
    SumAppend(xs, [b]);
    SumAppend(xs + [b], ys);
    SumAppend(xs, ys);
  }

  /** An operand is added to the stored number, to 0 if there is none, and the wrapped sum is stored as text. */
  lemma NumbersAreAdded(base: Bytes, operand: Bytes, m: int, n: int)
    requires IsNumber(base, m) && IsNumber(operand, n)
    ensures FromUtf8(Merged(Some(base), [operand])) == Some(Decimal(Wrap64(m + n)))
    ensures FromUtf8(Merged(None, [operand])) == Some(Decimal(n))
    ensures FromUtf8(Merged(Some(base), [])) == Some(Decimal(m))
    ensures FromUtf8(Merged(None, [])) == Some(Decimal(0))
  {
    hide FromUtf8, Decimal, ParseI64, Spells, AsciiBytes;
    NumbersAreSpelled(base, m);
    NumbersAreSpelled(operand, n);
    SumOne(operand);
    TextOf(Wrap64(m + n));
    TextOf(n);
    TextOf(m);
    TextOf(0);
  }

  lemma TextOf(n: int)
    ensures FromUtf8(I64Bytes(n)) == Some(Decimal(n))
  {
    hide FromUtf8, Decimal, AsciiBytes;
    DecimalIsAscii(n);
    AsciiRoundTrip(Decimal(n));
  }

  // ---------- merge schedules ----------

  /**
  What the store may have made of some operands: an operand as written, or the
  result of a partial merge (the same function, without a base) of such things.
  */
  datatype Plan = Operand(bytes: Bytes) | Partial(inputs: seq<Plan>)

  function Value(p: Plan): Bytes {
    match p
    case Operand(b) => b
    case Partial(inputs) => Merged(None, Values(inputs))
  }

  function Values(ps: seq<Plan>): (r: seq<Bytes>)
  {
    if ps == [] then [] else [Value(ps[0])] + Values(ps[1..])
  }

  /** The operands as they were written, oldest first. */
  function Leaves(p: Plan): seq<Bytes> {
    match p
    case Operand(b) => [b]
    case Partial(inputs) => AllLeaves(inputs)
  }

  function AllLeaves(ps: seq<Plan>): seq<Bytes> {
    if ps == [] then [] else Leaves(ps[0]) + AllLeaves(ps[1..])
  }

  /** Full merges of successive groups into the base. */
  function FullMerges(base: Option<Bytes>, groups: seq<seq<Plan>>): Option<Bytes>
    decreases |groups|
  {
    if groups == [] then base
    else FullMerges(Some(Merged(base, Values(groups[0]))), groups[1..])
  }

  function GroupLeaves(groups: seq<seq<Plan>>): seq<Bytes> {
    if groups == [] then [] else AllLeaves(groups[0]) + GroupLeaves(groups[1..])
  }

  /** Any tree of partial merges and any chain of full merges gives the bytes of the flat merge. */
  lemma {:induction false} ScheduleIndependence(base: Option<Bytes>, groups: seq<seq<Plan>>)
    requires groups != []
    ensures FullMerges(base, groups) == Some(Merged(base, GroupLeaves(groups)))
    decreases |groups|
  {
    hide Number, Wrap64, Values, AllLeaves, I64Bytes;
    var leaves := AllLeaves(groups[0]);
    PlansCountTheirLeaves(groups[0]);
    WrapSum(BaseNumber(base), BaseNumber(base), Sum(Values(groups[0])), Sum(leaves));
    var first := Merged(base, Values(groups[0]));
    assert first == Merged(base, leaves);
    if |groups| == 1 {
      assert GroupLeaves(groups[1..]) == [];
      assert GroupLeaves(groups) == leaves;
    } else {
      ScheduleIndependence(Some(first), groups[1..]);
      MergeComposes(base, leaves, GroupLeaves(groups[1..]));
    }
  }

  lemma MergeComposes(base: Option<Bytes>, xs: seq<Bytes>, ys: seq<Bytes>)
    ensures Merged(base, xs + ys) == Merged(Some(Merged(base, xs)), ys)
  {
    hide ParseI64, I64Bytes;
    var total := BaseNumber(base) + Sum(xs);
    I64BytesRoundTrip(Wrap64(total));
    WrapAbsorbs(total, Sum(ys), TWO63);
    SumAppend(xs, ys);
  }

  /** Wherever a partial merge replaces neighbouring operands, the merged bytes are the same. */
  lemma PartialMergeIsTransparent(base: Option<Bytes>, xs: seq<Bytes>, ys: seq<Bytes>, zs: seq<Bytes>)
    ensures Merged(base, xs + [Merged(None, ys)] + zs) == Merged(base, xs + ys + zs)
  {
    hide ParseI64, I64Bytes, Sum, Wrap64;
    var partial, total := Merged(None, ys), Sum(ys);
    I64BytesRoundTrip(Wrap64(total));
    assert Number(partial) == Wrap64(total);
    SumOne(partial);
    SumAppend(xs, [partial]);
    SumAppend(xs + [partial], zs);
    SumAppend(xs, ys);
    SumAppend(xs + ys, zs);
    var others := BaseNumber(base) + Sum(xs) + Sum(zs);
    WrapSum(others, others, Wrap64(total), total);
  }

  lemma {:induction false} PlanCountsItsLeaves(p: Plan)
    ensures Wrap64(Number(Value(p))) == Wrap64(Sum(Leaves(p)))
    decreases p
  {
    hide ParseI64, I64Bytes;
    match p
    case Operand(b) =>
      SumOne(b);
    case Partial(inputs) =>
      PlansCountTheirLeaves(inputs);
      I64BytesRoundTrip(Wrap64(Sum(Values(inputs))));
  }

  lemma {:induction false} PlansCountTheirLeaves(ps: seq<Plan>)
    ensures Wrap64(Sum(Values(ps))) == Wrap64(Sum(AllLeaves(ps)))
    decreases ps
  {
    hide Number, Wrap64, Value, Leaves;
    if ps != [] {
      PlanCountsItsLeaves(ps[0]);
      PlansCountTheirLeaves(ps[1..]);
      SumAppend([Value(ps[0])], Values(ps[1..]));
      SumOne(Value(ps[0]));
      SumAppend(Leaves(ps[0]), AllLeaves(ps[1..]));
      WrapSum(Number(Value(ps[0])), Sum(Leaves(ps[0])), Sum(Values(ps[1..])), Sum(AllLeaves(ps[1..])));
    }
  }

  lemma WrapSum(a: int, a': int, b: int, b': int)
    requires Wrap64(a) == Wrap64(a') && Wrap64(b) == Wrap64(b')
    ensures Wrap64(a + b) == Wrap64(a' + b')
  {
    WrapAbsorbs(a, b, TWO63);
    WrapAbsorbs(a', b, TWO63);
    WrapAbsorbs(b, a', TWO63);
    WrapAbsorbs(b', a', TWO63);
  }

  lemma SumOne(b: Bytes)
    ensures Sum([b]) == Number(b)
  {
    assert [b][..0] == [];
  }

  lemma {:induction false} SumAppend(xs: seq<Bytes>, ys: seq<Bytes>)
    ensures Sum(xs + ys) == Sum(xs) + Sum(ys)
  {
    if ys == [] {
      assert xs + ys == xs;
    } else {
      var n := |ys| - 1;
      assert (xs + ys)[..|xs + ys| - 1] == xs + ys[..n];
      SumAppend(xs, ys[..n]);
    }
  }
}
