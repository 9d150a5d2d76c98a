/** The Erlang-term merge operator (`erlang_merge`). */
module ErlangMerge {
  import opened Wrappers
  import opened Text
  import opened Machine
  import opened ErlangTerms
  import Counter

  /** The version byte that opens every External Term Format encoding. */
  const ETF_VERSION: byte := 131

  /** Encoding and decoding of the External Term Format, done by a library. */
  datatype Codec = Codec(encode: Term -> Option<Bytes>, decode: Bytes -> Option<Term>) {
    ghost predicate Valid() {
      && (forall t: Term :: encode(t).Some? && decode(encode(t).value) == Some(t))
      && (forall b: Bytes :: decode(b).Some? ==> b != [] && b[0] == ETF_VERSION)
    }
  }

  /** The bytes a merge stores, unless the operator panicked. */
  datatype Merge = Panicked | Stored(bytes: Bytes)

  /** The operands that decode as terms, in order. */
  function Terms(codec: Codec, operands: seq<Bytes>): seq<Term> {
    if operands == [] then []
    else
      var n := |operands| - 1;
      Terms(codec, operands[..n]) + match codec.decode(operands[n]) { case Some(t) => [t] case None => [] }
  }

  function BaseTerm(codec: Codec, base: Option<Bytes>): Option<Term> {
    if base.Some? then codec.decode(base.value) else None
  }

  function Merged(codec: Codec, base: Option<Bytes>, operands: seq<Bytes>): Merge {
    match Fold(BaseTerm(codec, base), Terms(codec, operands))
    case Panic => Panicked
    case Value(t) =>
      if Terms(codec, operands) != [] && t.Some? && codec.encode(t.value).Some?
      then Stored(codec.encode(t.value).value)
      else Stored(Counter.Merged(base, operands))
  }

  method ErlangMerge(codec: Codec, existing: Option<Bytes>, operands: seq<Bytes>) returns (merged: Merge)
    ensures merged == Merged(codec, existing, operands)
  {
    hide Process, Terms, Fold, Counter.Merged;
    var current := BaseTerm(codec, existing);
    var isEtf := false;
    ghost var base := current;
    NothingYet(codec, base);
    assert operands[..0] == [];
    for i := 0 to |operands|
      invariant Fold(base, Terms(codec, operands[..i])) == Value(current)
      invariant isEtf <==> Terms(codec, operands[..i]) != []
    {
      var operand := codec.decode(operands[i]);
      NextOperand(codec, base, operands, i);
      if operand.Some? {
        var outcome := ProcessMergeOperation(current, operand.value);
        if outcome.Panic? {
          PanicIsFinal(base, codec, operands, i + 1);
          return Panicked;
        }
        current := outcome.term;
        isEtf := true;
      }
    }
    assert operands[..|operands|] == operands;
    if isEtf && current.Some? {
      var buffer := codec.encode(current.value);
      if buffer.Some? {
        return Stored(buffer.value);
      }
    }
    var fallback := Counter.CounterMerge(existing, operands);
    return Stored(fallback.value);
  }

  lemma NothingYet(codec: Codec, base: Option<Term>)
    ensures Terms(codec, []) == [] && Fold(base, []) == Value(base)
  {
  }

  /** An operand that decodes is folded in; any other is passed over. */
  lemma NextOperand(codec: Codec, base: Option<Term>, operands: seq<Bytes>, i: nat)
    requires i < |operands| && Fold(base, Terms(codec, operands[..i])).Value?
    ensures var before, after := Terms(codec, operands[..i]), Terms(codec, operands[..i + 1]);
            match codec.decode(operands[i])
            case None => after == before
            case Some(t) => after != [] && Fold(base, after) == Process(Fold(base, before).term, t)
  {
    hide Process;
    var before := Terms(codec, operands[..i]);
    assert operands[..i + 1][..i] == operands[..i];
    if codec.decode(operands[i]).Some? {
      var t := codec.decode(operands[i]).value;
      assert Terms(codec, operands[..i + 1]) == before + [t];
      assert (before + [t])[..|before|] == before;
    }
  }

  lemma {:induction false} PanicIsFinal(base: Option<Term>, codec: Codec, operands: seq<Bytes>, n: nat)
    requires n <= |operands| && Fold(base, Terms(codec, operands[..n])) == Panic
    ensures Fold(base, Terms(codec, operands)) == Panic
  {
    hide Process, Fold, Terms;
    TermsAppend(codec, operands[..n], operands[n..]);
    assert operands == operands[..n] + operands[n..];
    FoldComposes(base, Terms(codec, operands[..n]), Terms(codec, operands[n..]));
  }

  lemma {:induction false} TermsAppend(codec: Codec, xs: seq<Bytes>, ys: seq<Bytes>)
    ensures Terms(codec, xs + ys) == Terms(codec, xs) + Terms(codec, ys)
  {
    if ys == [] {
      assert xs + ys == xs;
    } else {
      TermsAppend(codec, xs, ys[..|ys| - 1]);
      assert (xs + ys)[..|xs + ys| - 1] == xs + ys[..|ys| - 1];
    }
  }

  // ---------- left-fold composition ----------

  ghost predicate AllTerms(codec: Codec, operands: seq<Bytes>) {
    forall i :: 0 <= i < |operands| ==> codec.decode(operands[i]).Some?
  }

  function Then(codec: Codec, first: Merge, operands: seq<Bytes>): Merge {
    match first
    case Panicked => Panicked
    case Stored(b) => Merged(codec, Some(b), operands)
  }

  /** The merge ends with a term, which it encodes. */
  ghost predicate YieldsTerm(codec: Codec, base: Option<Bytes>, operands: seq<Bytes>) {
    && Terms(codec, operands) != []
    && Fold(BaseTerm(codec, base), Terms(codec, operands)).Value?
    && Fold(BaseTerm(codec, base), Terms(codec, operands)).term.Some?
  }

  /** When merging some operands and later the rest gives what merging them at once gives. */
  ghost predicate Composes(codec: Codec, base: Option<Bytes>, xs: seq<Bytes>, ys: seq<Bytes>) {
    if Terms(codec, xs) != [] then
      Terms(codec, ys) != [] || !YieldsTerm(codec, base, xs)
    else
      Terms(codec, ys) == [] || Fold(BaseTerm(codec, base), Terms(codec, ys)) == Fold(None, Terms(codec, ys))
  }

  /**
  Merging some operands and later the rest gives what merging them together
  gives, panics included, but for two cases. The first part has yielded a term
  and the rest holds no term: then the later merge replaces the term by a decimal
  string. Or the first part holds no term and so has replaced the stored term,
  and the rest would have made something else of that term than of nothing.
  */
  lemma MergeComposesIff(codec: Codec, base: Option<Bytes>, xs: seq<Bytes>, ys: seq<Bytes>)
    requires codec.Valid()
    ensures Merged(codec, base, xs + ys) == Then(codec, Merged(codec, base, xs), ys) <==> Composes(codec, base, xs, ys)
  {
    hide Process, Counter.Merged, FromUtf8;
    TermsAppend(codec, xs, ys);
    FoldComposes(BaseTerm(codec, base), Terms(codec, xs), Terms(codec, ys));
    FallbackIsNoTerm(codec, base, xs);
    FallbackIsNoTerm(codec, base, xs + ys);
    Counter.MergeComposes(base, xs, ys);
    var stored := BaseTerm(codec, base);
    var first := Fold(stored, Terms(codec, xs));
    if first.Value? && first.term.Some? && Terms(codec, xs) != [] {
      FoldKeepsTerms(first.term, Terms(codec, ys));
      var encoded := codec.encode(first.term.value).value;
      assert codec.decode(encoded) == first.term;
      FallbackIsNoTerm(codec, Some(encoded), ys);
    } else if Terms(codec, xs) == [] {
      assert Terms(codec, xs) + Terms(codec, ys) == Terms(codec, ys);
      if stored.Some? {
        FoldKeepsTerms(stored, Terms(codec, ys));
      }
      FallbackIsNoTerm(codec, Some(Counter.Merged(base, xs)), ys);
      SameMerge(codec, Fold(stored, Terms(codec, ys)), Fold(None, Terms(codec, ys)));
    }
  }

  /** Encodings tell terms apart. */
  lemma SameMerge(codec: Codec, a: Outcome, b: Outcome)
    requires codec.Valid()
    ensures a.Value? && b.Value? && a.term.Some? && b.term.Some? ==>
              (codec.encode(a.term.value) == codec.encode(b.term.value) <==> a == b)
  {
    if a.Value? && b.Value? && a.term.Some? && b.term.Some? {
      assert codec.decode(codec.encode(a.term.value).value) == a.term;
      assert codec.decode(codec.encode(b.term.value).value) == b.term;
    }
  }

  /**
  The second case by the operands alone: a stored term composes with a termless
  first part exactly when some later operand edits and, if the first one that
  does edits the stored kind, what it makes of the term is later made equal to
  what it makes of nothing.
  */
  lemma TermlessFirstPartIff(codec: Codec, base: Bytes, xs: seq<Bytes>, ys: seq<Bytes>)
    requires codec.Valid() && codec.decode(base).Some? && Terms(codec, xs) == [] && Terms(codec, ys) != []
    ensures var t, ts := codec.decode(base).value, Terms(codec, ys);
            var k := FirstEdit(ts);
            Merged(codec, Some(base), xs + ys) == Then(codec, Merged(codec, Some(base), xs), ys)
            <==> && k < |ts|
                 && (Edits(ts[k].elements[0].name, t) ==>
                       FoldFrom(Process(Some(t), ts[k]), ts[k + 1..]) == FoldFrom(Process(None, ts[k]), ts[k + 1..]))
  {
    hide Process, IsEdit, Edits, Merged, Then, Fold, FoldFrom, FirstEdit;
    MergeComposesIff(codec, Some(base), xs, ys);
    TermIsForgottenIff(codec.decode(base).value, Terms(codec, ys));
  }

  /** 10, then an operand that is no term, then "add 1": together 11, in two parts 1. */
  lemma TermlessFirstPartForgetsTen(codec: Codec, ten: Bytes, junk: Bytes, plusOne: Bytes)
    requires codec.Valid() && codec.decode(ten) == Some(FixInteger(10))
    requires codec.decode(junk) == None && codec.decode(plusOne) == Some(IntAdd(1))
    ensures Merged(codec, Some(ten), [junk] + [plusOne]) == Stored(codec.encode(FixInteger(11)).value)
    ensures Then(codec, Merged(codec, Some(ten), [junk]), [plusOne]) == Stored(codec.encode(FixInteger(1)).value)
    ensures !Composes(codec, Some(ten), [junk], [plusOne])
  {
    var one: i32 := 1;
    hide Process, Counter.Merged, FromUtf8, Terms, Fold, Total, IntAdd;
    TermsOfOne(codec, junk);
    TermsOfOne(codec, plusOne);
    TermsAppend(codec, [junk], [plusOne]);
    assert Terms(codec, [junk] + [plusOne]) == [IntAdd(one)];
    FallbackIsNoTerm(codec, Some(ten), [junk]);
    AddOnce(Some(FixInteger(10)), one);
    AddOnce(None, one);
    NothingFolds(codec.decode(ten));
    MergedTerm(codec, Some(ten), [junk] + [plusOne]);
    MergedTerm(codec, Some(Counter.Merged(Some(ten), [junk])), [plusOne]);
  }

  lemma AddOnce(existing: Option<Term>, n: i32)
    ensures Fold(existing, [IntAdd(n)]) == IntResult(IntOf(existing) + n)
  {
    FoldTwo(existing, IntAdd(n), IntAdd(n));
  }

  /** 10 and the decimal operand "5": the stored integer is gone, and "5" is what is left. */
  lemma DecimalReplacesTen(codec: Codec, ten: Bytes)
    requires codec.Valid() && codec.decode(ten) == Some(FixInteger(10))
    ensures Merged(codec, Some(ten), [Counter.I64Bytes(5)]) == Stored(Counter.I64Bytes(5))
    ensures codec.decode(Counter.I64Bytes(5)) == None
  {
    hide FromUtf8, Process, Counter.I64Bytes, Counter.ParseI64, Counter.Sum, Fold;
    DecimalIsNoTerm(codec, 5);
    TermsOfOne(codec, Counter.I64Bytes(5));
    NothingFolds(codec.decode(ten));
    EncodedTermIsNoNumber(codec, ten);
    Counter.I64BytesRoundTrip(5);
    Counter.SumOne(Counter.I64Bytes(5));
  }

  /** For a stored integer: some later operand must edit, and another kind unless the integer is zero. */
  lemma TermlessFirstPartOfIntegerIff(codec: Codec, base: Bytes, xs: seq<Bytes>, ys: seq<Bytes>)
    requires codec.Valid() && codec.decode(base).Some? && codec.decode(base).value.FixInteger?
    requires Terms(codec, xs) == [] && Terms(codec, ys) != []
    ensures var n, ts := codec.decode(base).value.value, Terms(codec, ys);
            Merged(codec, Some(base), xs + ys) == Then(codec, Merged(codec, Some(base), xs), ys)
            <==> exists i :: 0 <= i < |ts| && IsEdit(ts[i]) && (n == 0 || !IsIntAdd(ts[i]))
  {
    hide Process, IsEdit, IsIntAdd, Merged, Then, Fold;
    MergeComposesIff(codec, Some(base), xs, ys);
    IntegerIsForgottenIff(codec.decode(base).value.value, Terms(codec, ys));
  }

  /** A merge without any term operand replaces a stored term by a decimal string. */
  lemma TermlessMergeErasesTerm(codec: Codec, base: Option<Bytes>, operands: seq<Bytes>)
    requires codec.Valid() && Terms(codec, operands) == []
    ensures Merged(codec, base, operands) == Stored(Counter.Merged(base, operands))
    ensures codec.decode(Counter.Merged(base, operands)) == None
  {
    FallbackIsNoTerm(codec, base, operands);
  }

  /** A stored term stays a term exactly when some operand is one. */
  lemma TermSurvivesIff(codec: Codec, base: Bytes, operands: seq<Bytes>)
    requires codec.Valid() && codec.decode(base).Some? && Merged(codec, Some(base), operands).Stored?
    ensures codec.decode(Merged(codec, Some(base), operands).bytes).Some? <==> Terms(codec, operands) != []
  {
    hide Process, Counter.Merged, Terms, Fold;
    FallbackIsNoTerm(codec, Some(base), operands);
    FoldKeepsTerms(codec.decode(base), Terms(codec, operands));
    var outcome := Fold(codec.decode(base), Terms(codec, operands));
    if outcome.Value? && outcome.term.Some? {
      assert codec.decode(codec.encode(outcome.term.value).value) == outcome.term;
    }
  }

  /** One operand that is a term: the operation on what the stored bytes decode to, encoded again. */
  lemma MergeOneTerm(codec: Codec, base: Option<Bytes>, operand: Bytes)
    requires codec.Valid() && codec.decode(operand).Some?
    ensures var stored := if base.Some? then codec.decode(base.value) else None;
            Merged(codec, base, [operand])
            == match Process(stored, codec.decode(operand).value)
               case Panic => Panicked
               case Value(Some(t)) => Stored(codec.encode(t).value)
               case Value(None) => Stored(Counter.Merged(base, []))
  {
    hide Process, Counter.I64Bytes, Counter.Number;
    TermsOfOne(codec, operand);
    FoldTwo(BaseTerm(codec, base), codec.decode(operand).value, codec.decode(operand).value);
    EncodedTermIsNoNumber(codec, operand);
    Counter.SumOne(operand);
  }

  /** Streams of terms compose. */
  lemma MergeComposes(codec: Codec, base: Option<Bytes>, xs: seq<Bytes>, ys: seq<Bytes>)
    requires codec.Valid() && xs != [] && ys != [] && AllTerms(codec, xs) && AllTerms(codec, ys)
    ensures Merged(codec, base, xs + ys) == Then(codec, Merged(codec, base, xs), ys)
  {
    hide Merged, Then, Terms;
    TermsAreKept(codec, xs);
    TermsAreKept(codec, ys);
    MergeComposesIff(codec, base, xs, ys);
  }

  lemma {:induction false} TermsAreKept(codec: Codec, operands: seq<Bytes>)
    requires AllTerms(codec, operands)
    ensures |Terms(codec, operands)| == |operands|
  {
    if operands != [] {
      TermsAreKept(codec, operands[..|operands| - 1]);
    }
  }

  lemma {:induction false} FoldKeepsTerms(t: Option<Term>, operands: seq<Term>)
    requires t.Some?
    ensures Fold(t, operands).Value? ==> Fold(t, operands).term.Some?
  {
    if operands != [] {
      FoldKeepsTerms(t, operands[..|operands| - 1]);
    }
  }

  /** A decimal string never decodes as a term. */
  lemma FallbackIsNoTerm(codec: Codec, base: Option<Bytes>, operands: seq<Bytes>)
    requires codec.Valid()
    ensures codec.decode(Counter.Merged(base, operands)) == None
  {
    hide Counter.I64Bytes, Wrap64;
    Counter.I64BytesAreAscii(Wrap64(Counter.BaseNumber(base) + Counter.Sum(operands)));
  }

  /** An encoded term counts for nothing in the decimal fallback. */
  lemma EncodedTermIsNoNumber(codec: Codec, b: Bytes)
    requires codec.Valid() && codec.decode(b).Some?
    ensures Counter.Number(b) == 0
  {
    assert FirstScalar(b) == None;
  }

  // ---------- partial merges ----------

  /**
  The operator is registered as associative, so the store may merge operands
  among themselves and later apply the result as an operand.
  */
  function PartiallyMerged(codec: Codec, base: Option<Bytes>, operands: seq<Bytes>): Merge {
    match Merged(codec, None, operands)
    case Panicked => Panicked
    case Stored(partial) => Merged(codec, base, [partial])
  }

  /**
  Every edit is then lost. If the operands yield a term, that term is no tuple
  operation: a stored term stays as it was, and anything else is read as a
  decimal, an absent value as "0". Otherwise a stored term becomes a decimal.
  */
  lemma PartialMergeLosesEdits(codec: Codec, base: Option<Bytes>, operands: seq<Bytes>)
    requires codec.Valid() && Merged(codec, None, operands).Stored?
    ensures PartiallyMerged(codec, base, operands)
            == if !YieldsTerm(codec, None, operands) then Stored(Counter.Merged(base, operands))
               else if BaseTerm(codec, base).Some? then Stored(codec.encode(BaseTerm(codec, base).value).value)
               else Stored(Counter.I64Bytes(Counter.BaseNumber(base)))
  {
    hide Process, Counter.I64Bytes, FromUtf8, Fold, Terms;
    var partial := Merged(codec, None, operands).bytes;
    TermsOfOne(codec, partial);
    if YieldsTerm(codec, None, operands) {
      var result := Fold(None, Terms(codec, operands)).term.value;
      assert partial == codec.encode(result).value;
      NothingFoldsToTuple(Terms(codec, operands));
      FoldTwo(BaseTerm(codec, base), result, result);
      NonTupleDoesNothing(BaseTerm(codec, base), result);
      EncodedTermIsNoNumber(codec, partial);
      Counter.SumOne(partial);
    } else {
      FallbackIsNoTerm(codec, None, operands);
      NothingFolds(BaseTerm(codec, base));
      NothingFolds(None);
      Counter.PartialMergeIsTransparent(base, [], operands, []);
      assert [] + [partial] + [] == [partial] && [] + operands + [] == operands;
    }
  }

  /**
  For every base, operands and panic: a partial merge is harmless exactly when no
  operand is a term, or the terms make nothing of nothing and there is no stored
  term, or they make something of nothing but leave the stored term as it is.
  */
  lemma PartialMergeIff(codec: Codec, base: Option<Bytes>, operands: seq<Bytes>)
    requires codec.Valid()
    ensures PartiallyMerged(codec, base, operands) == Merged(codec, base, operands)
            <==> var t, ts := BaseTerm(codec, base), Terms(codec, operands);
                 || ts == []
                 || match Fold(None, ts)
                    case Panic => Fold(t, ts) == Panic
                    case Value(None) => t == None
                    case Value(Some(_)) => t.Some? && Fold(t, ts) == Value(t)
  {
    hide Process, Counter.I64Bytes, FromUtf8, Fold, Terms, Counter.Merged;
    var t, ts := BaseTerm(codec, base), Terms(codec, operands);
    NothingFolds(t);
    NothingFolds(None);
    if Fold(None, ts).Value? {
      PartialMergeLosesEdits(codec, base, operands);
      FallbackIsNoTerm(codec, base, operands);
      DecimalIsNoTerm(codec, Counter.BaseNumber(base));
      if t.Some? {
        FoldKeepsTerms(t, ts);
        SameMerge(codec, Fold(t, ts), Value(t));
        assert codec.decode(codec.encode(t.value).value) == t;
      }
      if Fold(t, ts).Value? && Fold(t, ts).term.Some? {
        assert codec.decode(codec.encode(Fold(t, ts).term.value).value).Some?;
      }
    }
  }

  /** Unless the partial merge panics, it is harmless on every base exactly when no operand is a term. */
  lemma PartialMergeIsSafeIff(codec: Codec, operands: seq<Bytes>)
    requires codec.Valid() && Merged(codec, None, operands).Stored?
    ensures (forall base :: PartiallyMerged(codec, base, operands) == Merged(codec, base, operands))
            <==> Terms(codec, operands) == []
  {
    hide Process, Counter.Merged, Terms, Fold, PartiallyMerged, Merged;
    forall base ensures Terms(codec, operands) == [] ==>
                          PartiallyMerged(codec, base, operands) == Merged(codec, base, operands) {
      PartialMergeIff(codec, base, operands);
    }
    if Terms(codec, operands) != [] {
      var base := DistinguishingBase(codec, operands);
    }
  }

  /** No value distinguishes the two if the operands yield a term, and the integer 0 if they do not. */
  lemma DistinguishingBase(codec: Codec, operands: seq<Bytes>) returns (base: Option<Bytes>)
    requires codec.Valid() && Merged(codec, None, operands).Stored? && Terms(codec, operands) != []
    ensures base == if YieldsTerm(codec, None, operands) then None else codec.encode(FixInteger(0))
    ensures PartiallyMerged(codec, base, operands) != Merged(codec, base, operands)
  {
    hide Process, Counter.Merged, Terms, Fold, PartiallyMerged;
    base := if YieldsTerm(codec, None, operands) then None else codec.encode(FixInteger(0));
    PartialMergeIff(codec, base, operands);
    assert base.Some? ==> codec.decode(base.value) == Some(FixInteger(0));
  }

  lemma DecimalIsNoTerm(codec: Codec, n: int)
    requires codec.Valid()
    ensures codec.decode(Counter.I64Bytes(n)) == None
  {
    hide Counter.I64Bytes;
    Counter.I64BytesAreAscii(n);
  }

  lemma TermsOfOne(codec: Codec, b: Bytes)
    ensures Terms(codec, [b]) == match codec.decode(b) { case Some(t) => [t] case None => [] }
  {
    assert [b][..0] == [];
  }

  lemma NonTupleDoesNothing(existing: Option<Term>, operand: Term)
    requires !operand.Tuple?
    ensures Process(existing, operand) == Value(existing)
  {
  }

  lemma {:induction false} NothingFoldsToTuple(operands: seq<Term>)
    ensures Fold(None, operands).Value? && Fold(None, operands).term.Some? ==> !Fold(None, operands).term.value.Tuple?
  {
    if operands != [] {
      NothingFoldsToTuple(operands[..|operands| - 1]);
    }
  }

  /** Two additions, merged partially first, vanish. */
  lemma PartialIntAddsVanish(codec: Codec, base: Bytes, plusOne: Bytes, plusTwo: Bytes)
    requires codec.Valid() && codec.decode(base) == Some(FixInteger(10))
    requires codec.decode(plusOne) == Some(IntAdd(1)) && codec.decode(plusTwo) == Some(IntAdd(2))
    ensures Merged(codec, None, [plusOne, plusTwo]) == Stored(codec.encode(FixInteger(3)).value)
    ensures Merged(codec, Some(base), [plusOne, plusTwo]) == Stored(codec.encode(FixInteger(13)).value)
    ensures Merged(codec, Some(base), [Merged(codec, None, [plusOne, plusTwo]).bytes])
            == Stored(codec.encode(FixInteger(10)).value)
  {
    hide Process, Counter.Merged, Merged, Terms, Fold, Total;
    var operands := [plusOne, plusTwo];
    TermsOfTwo(codec, plusOne, plusTwo);
    IntAddsWrapTheTotal(None, [IntAdd(1), IntAdd(2)]);
    IntAddsWrapTheTotal(Some(FixInteger(10)), [IntAdd(1), IntAdd(2)]);
    TotalOfTwo(1, 2);
    MergedTerm(codec, None, operands);
    MergedTerm(codec, Some(base), operands);
    PartialMergeLosesEdits(codec, Some(base), operands);
  }

  lemma MergedTerm(codec: Codec, base: Option<Bytes>, operands: seq<Bytes>)
    requires codec.Valid() && Terms(codec, operands) != []
    ensures var outcome := Fold(BaseTerm(codec, base), Terms(codec, operands));
            outcome.Value? && outcome.term.Some?
            ==> Merged(codec, base, operands) == Stored(codec.encode(outcome.term.value).value)
  {
    hide Process, Counter.Merged;
  }

  lemma TermsOfTwo(codec: Codec, a: Bytes, b: Bytes)
    requires codec.decode(a).Some? && codec.decode(b).Some?
    ensures Terms(codec, [a, b]) == [codec.decode(a).value, codec.decode(b).value]
  {
    var one, two := [a], [a, b];
    assert two[..1] == one && one[..0] == [];
    assert Terms(codec, one) == [codec.decode(a).value];
  }

  lemma TotalOfTwo(m: i32, n: i32)
    ensures Total([IntAdd(m), IntAdd(n)]) == m + n
  {
    var one, two := [IntAdd(m)], [IntAdd(m), IntAdd(n)];
    assert two[..1] == one && one[..0] == [];
    assert Total(one) == m;
  }
}
