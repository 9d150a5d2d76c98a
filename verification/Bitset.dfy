/** The bitset merge operator (`bitset_merge`, `set_bit`, `clear_bit`). */
module Bitset {
  import opened Wrappers
  import opened Text
  import opened Machine

  // ---------- bits of a byte ----------

  /** `1 << k` */
  function Mask(k: nat): bv8
    requires k < 8
  {
    match k
    case 0 => 1
    case 1 => 2
    case 2 => 4
    case 3 => 8
    case 4 => 16
    case 5 => 32
    case 6 => 64
    case 7 => 128
  }

  lemma MaskIsShift(k: nat)
    requires k < 8
    ensures Mask(k) == 1 as bv8 << k
  {
  }

  function Bits(b: byte): bv8 {
    b as bv8
  }

  function Packed(m: bv8): byte {
    m as int
  }

  lemma BitsPacked(m: bv8)
    ensures Bits(Packed(m)) == m
  {
  }

  lemma PackedSuccessor(m: bv8)
    requires Packed(m) < 0xFF
    ensures Packed(m + 1) == Packed(m) + 1
  {
  }

  /** Counting up to `b` finds the bits that pack into it. */
  lemma {:induction false} EveryByteIsPacked(b: byte) returns (m: bv8)
    ensures Packed(m) == b
  {
    if b == 0 {
      m := 0;
    } else {
      var smaller := EveryByteIsPacked(b - 1);
      PackedSuccessor(smaller);
      m := smaller + 1;
    }
  }

  lemma PackedBits(b: byte)
    ensures Packed(Bits(b)) == b
  {
    var m := EveryByteIsPacked(b);
    BitsPacked(m);
  }

  predicate Bit(b: byte, k: nat)
    requires k < 8
  {
    Bits(b) & Mask(k) != 0
  }

  function OrMask(b: byte, m: bv8): byte {
    Packed(Bits(b) | m)
  }

  function AndNotMask(b: byte, m: bv8): byte {
    Packed(Bits(b) & !m)
  }

  predicate IsMask(m: bv8) {
    m == 1 || m == 2 || m == 4 || m == 8 || m == 16 || m == 32 || m == 64 || m == 128
  }

  lemma MasksOverlapOnlyThemselves(x: bv8, m: bv8, n: bv8)
    requires IsMask(m) && IsMask(n)
    ensures (x | m) & n != 0 <==> m == n || x & n != 0
    ensures (x & !m) & n != 0 <==> m != n && x & n != 0
  {
  }

  lemma MaskIsInjective(j: nat, k: nat)
    requires j < 8 && k < 8
    ensures IsMask(Mask(j)) && IsMask(Mask(k)) && (Mask(j) == Mask(k) <==> j == k)
  {
  }

  lemma OrBitSetsOne(b: byte, k: nat, j: nat)
    requires k < 8 && j < 8
    ensures Bit(OrMask(b, Mask(k)), j) <==> j == k || Bit(b, j)
  {
    hide Bits, Packed, Mask, IsMask;
    MaskIsInjective(j, k);
    MasksOverlapOnlyThemselves(Bits(b), Mask(k), Mask(j));
    BitsPacked(Bits(b) | Mask(k));
  }

  lemma AndNotBitClearsOne(b: byte, k: nat, j: nat)
    requires k < 8 && j < 8
    ensures Bit(AndNotMask(b, Mask(k)), j) <==> j != k && Bit(b, j)
  {
    hide Bits, Packed, Mask, IsMask;
    MaskIsInjective(j, k);
    MasksOverlapOnlyThemselves(Bits(b), Mask(k), Mask(j));
    BitsPacked(Bits(b) & !Mask(k));
  }

  lemma ByteFromBits(a: byte, b: byte)
    requires forall k: nat :: k < 8 ==> Bit(a, k) == Bit(b, k)
    ensures a == b
  {
    hide Bits, Packed;
    assert Bit(a, 0) == Bit(b, 0) && Bit(a, 1) == Bit(b, 1) && Bit(a, 2) == Bit(b, 2) && Bit(a, 3) == Bit(b, 3);
    assert Bit(a, 4) == Bit(b, 4) && Bit(a, 5) == Bit(b, 5) && Bit(a, 6) == Bit(b, 6) && Bit(a, 7) == Bit(b, 7);
    assert Bits(a) == Bits(b);
    PackedBits(a);
    PackedBits(b);
  }

  // ---------- a byte string as a set of positions ----------

  predicate Has(b: Bytes, p: nat) {
    p / 8 < |b| && Bit(b[p / 8], p % 8)
  }

  function Zeros(n: nat): Bytes {
    seq(n, _ => 0)
  }

  function WithSet(b: Bytes, pos: nat): Bytes {
    var grown := if pos / 8 >= |b| then b + Zeros(pos / 8 + 1 - |b|) else b;
    grown[pos / 8 := OrMask(grown[pos / 8], Mask(pos % 8))]
  }

  function WithClear(b: Bytes, pos: nat): Bytes {
    if pos / 8 < |b| then b[pos / 8 := AndNotMask(b[pos / 8], Mask(pos % 8))] else b
  }

  lemma SetChangesOnePosition(b: Bytes, pos: nat, q: nat)
    ensures Has(WithSet(b, pos), q) <==> q == pos || Has(b, q)
    ensures |WithSet(b, pos)| == if pos / 8 < |b| then |b| else pos / 8 + 1
  {
    hide Bit, OrMask, Mask;
    ZeroHasNoBits(q % 8);
    if q / 8 == pos / 8 {
      OrBitSetsOne(if pos / 8 < |b| then b[pos / 8] else 0, pos % 8, q % 8);
    }
  }

  lemma ClearChangesOnePosition(b: Bytes, pos: nat, q: nat)
    ensures Has(WithClear(b, pos), q) <==> q != pos && Has(b, q)
    ensures |WithClear(b, pos)| == |b|
  {
    hide Bit, AndNotMask, Mask;
    if q / 8 == pos / 8 && q / 8 < |b| {
      AndNotBitClearsOne(b[pos / 8], pos % 8, q % 8);
    }
  }

  lemma ZeroHasNoBits(k: nat)
    requires k < 8
    ensures !Bit(0, k)
  {
    assert Bits(0) == 0;
  }

  /** Length and positions say everything about the stored bytes. */
  lemma BytesFromPositions(a: Bytes, b: Bytes)
    requires |a| == |b| && forall p: nat :: Has(a, p) == Has(b, p)
    ensures a == b
  {
    hide Bit;
    forall i | 0 <= i < |a| ensures a[i] == b[i] {
      forall k: nat | k < 8 ensures Bit(a[i], k) == Bit(b[i], k) {
        assert Has(a, 8 * i + k) == Has(b, 8 * i + k);
      }
      ByteFromBits(a[i], b[i]);
    }
  }

  /** The `Vec<u8>` that `set_bit` and `clear_bit` change in place. */
  class BitVec {
    var bytes: Bytes

    constructor (initial: Bytes)
      ensures bytes == initial
    {
      bytes := initial;
    }

    method SetBit(pos: nat)
      modifies this
      ensures bytes == WithSet(old(bytes), pos)
    {
      var byteIndex, bitIndex := pos / 8, pos % 8;
      if byteIndex >= |bytes| {
        bytes := bytes + Zeros(byteIndex + 1 - |bytes|);
      }
      MaskIsShift(bitIndex);
      bytes := bytes[byteIndex := OrMask(bytes[byteIndex], 1 as bv8 << bitIndex)];
    }

    method ClearBit(pos: nat)
      modifies this
      ensures bytes == WithClear(old(bytes), pos)
    {
      var byteIndex, bitIndex := pos / 8, pos % 8;
      if byteIndex < |bytes| {
        MaskIsShift(bitIndex);
        bytes := bytes[byteIndex := AndNotMask(bytes[byteIndex], 1 as bv8 << bitIndex)];
      }
    }
  }

  // ---------- the operator ----------

  datatype Operation = ClearAll | Set(pos: nat) | Clear(pos: nat) | Ignored

  function Decode(operand: Bytes): Operation {
    match FromUtf8(operand)
    case None => Ignored
    case Some(s) =>
      var trimmed := Trim(s);
      if trimmed == "" then ClearAll
      else if trimmed[0] == '+' then
        match ParseUnsigned(trimmed[1..], USIZE_MAX)
        case Some(pos) => Set(pos)
        case None => Ignored
      else if trimmed[0] == '-' then
        match ParseUnsigned(trimmed[1..], USIZE_MAX)
        case Some(pos) => Clear(pos)
        case None => Ignored
      else Ignored
  }

  /** A position: digits that are a `usize`, behind at most one plus sign. */
  ghost predicate IsPosition(s: string, n: nat) {
    n <= USIZE_MAX && Spells(s, n) && (s != "" ==> s[0] != '-')
  }

  /** What an operand means, whatever the whitespace around it. */
  lemma OperandMeaning(operand: Bytes, before: string, core: string, after: string, n: nat)
    requires AllWhitespace(before) && AllWhitespace(after) && IsTrimmed(core)
    ensures FromUtf8(operand) == Some(before + core + after) ==>
              && (Decode(operand) == ClearAll <==> core == "")
              && (Decode(operand) == Set(n) <==> core != "" && core[0] == '+' && IsPosition(core[1..], n))
              && (Decode(operand) == Clear(n) <==> core != "" && core[0] == '-' && IsPosition(core[1..], n))
    ensures FromUtf8(operand) == None ==> Decode(operand) == Ignored
  {
    hide FromUtf8, Trim, Spells, ParseUnsigned;
    TrimPadded(before, core, after);
    if core != "" {
      ParsesIffSpelled(core[1..], n, 0, USIZE_MAX);
    }
  }

  function Apply(b: Bytes, op: Operation): Bytes {
    match op
    case ClearAll => []
    case Set(pos) => WithSet(b, pos)
    case Clear(pos) => WithClear(b, pos)
    case Ignored => b
  }

  function Fold(b: Bytes, operands: seq<Bytes>): Bytes {
    if operands == [] then b
    else Apply(Fold(b, operands[..|operands| - 1]), Decode(operands[|operands| - 1]))
  }

  function Merged(base: Option<Bytes>, operands: seq<Bytes>): Bytes {
    Fold(if base.Some? then base.value else [], operands)
  }

  method BitsetMerge(existing: Option<Bytes>, operands: seq<Bytes>) returns (merged: Option<Bytes>)
    ensures merged == Some(Merged(existing, operands))
  {
    hide WithSet, WithClear, FromUtf8, Trim, ParseUnsigned;
    var start := if existing.Some? then existing.value else [];
    var bitset := new BitVec(start);
    for i := 0 to |operands|
      invariant fresh(bitset)
      invariant bitset.bytes == Fold(start, operands[..i])
    {
      assert operands[..i + 1][..i] == operands[..i];
      var decoded := FromUtf8(operands[i]);
      if decoded.Some? {
        var trimmed := Trim(decoded.value);
        if trimmed == "" {
          bitset.bytes := [];
        } else if trimmed[0] == '+' {
          var pos := ParseUnsigned(trimmed[1..], USIZE_MAX);
          if pos.Some? {
            bitset.SetBit(pos.value);
          }
        } else if trimmed[0] == '-' {
          var pos := ParseUnsigned(trimmed[1..], USIZE_MAX);
          if pos.Some? {
            bitset.ClearBit(pos.value);
          }
        }
      }
    }
    assert operands[..|operands|] == operands;
    return Some(bitset.bytes);
  }

  // ---------- last writer wins ----------

  predicate Affects(op: Operation, p: nat) {
    op == ClearAll || op == Set(p) || op == Clear(p)
  }

  ghost predicate UntouchedAfter(operands: seq<Bytes>, i: int, p: nat) {
    forall j :: i < j < |operands| && 0 <= j ==> !Affects(Decode(operands[j]), p)
  }

  lemma {:induction false} LastWriterWins(base: Option<Bytes>, operands: seq<Bytes>, p: nat)
    ensures Has(Merged(base, operands), p) <==>
            || (exists i :: 0 <= i < |operands| && Decode(operands[i]) == Set(p) && UntouchedAfter(operands, i, p))
            || (base.Some? && Has(base.value, p) && UntouchedAfter(operands, -1, p))
  {
    hide Decode, WithSet, WithClear, Bit;
    if operands != [] {
      var n := |operands| - 1;
      var before, op := operands[..n], Decode(operands[n]);
      LastWriterWins(base, before, p);
      assert UntouchedAfter(operands, n, p);
      match op
      case ClearAll =>
      case Set(pos) => SetChangesOnePosition(Merged(base, before), pos, p);
      case Clear(pos) => ClearChangesOnePosition(Merged(base, before), pos, p);
      case Ignored =>
      if !Affects(op, p) {
        forall i | -1 <= i < n ensures UntouchedAfter(operands, i, p) == UntouchedAfter(before, i, p) {
          assert forall j :: 0 <= j < n ==> before[j] == operands[j];
        }
        forall i | 0 <= i < n ensures before[i] == operands[i] {
        }
      }
    }
  }

  // ---------- the stored length ----------

  predicate SetsBeyond(op: Operation, n: nat) {
    op.Set? && op.pos / 8 >= n
  }

  ghost predicate NotClearedAfter(operands: seq<Bytes>, i: int) {
    forall j :: i < j < |operands| && 0 <= j ==> Decode(operands[j]) != ClearAll
  }

  /** The length is what the sets since the last clear-all (or the base, if there is none) need. */
  lemma {:induction false} LengthIsTheHighestSet(base: Option<Bytes>, operands: seq<Bytes>, n: nat)
    ensures |Merged(base, operands)| > n <==>
            || (exists i :: 0 <= i < |operands| && SetsBeyond(Decode(operands[i]), n) && NotClearedAfter(operands, i))
            || (base.Some? && |base.value| > n && NotClearedAfter(operands, -1))
  {
    hide Decode, WithSet, WithClear;
    if operands != [] {
      var last := |operands| - 1;
      var before, op := operands[..last], Decode(operands[last]);
      LengthIsTheHighestSet(base, before, n);
      assert NotClearedAfter(operands, last);
      match op
      case ClearAll =>
      case Set(pos) => SetChangesOnePosition(Merged(base, before), pos, 0);
      case Clear(pos) => ClearChangesOnePosition(Merged(base, before), pos, 0);
      case Ignored =>
      if op != ClearAll {
        forall i | -1 <= i < last ensures NotClearedAfter(operands, i) == NotClearedAfter(before, i) {
          assert forall j :: 0 <= j < last ==> before[j] == operands[j];
        }
        forall i | 0 <= i < last ensures before[i] == operands[i] {
        }
      }
    }
  }

  lemma {:induction false} MergeComposes(base: Option<Bytes>, xs: seq<Bytes>, ys: seq<Bytes>)
    ensures Merged(base, xs + ys) == Merged(Some(Merged(base, xs)), ys)
  {
    hide Apply, Decode;
    if ys == [] {
      assert xs + ys == xs;
    } else {
      MergeComposes(base, xs, ys[..|ys| - 1]);
      assert (xs + ys)[..|xs + ys| - 1] == xs + ys[..|ys| - 1];
    }
  }

  // ---------- partial merges ----------

  ghost predicate NothingSetAfter(operands: seq<Bytes>, i: int) {
    forall j :: i < j < |operands| && 0 <= j ==> !Decode(operands[j]).Set?
  }

  ghost predicate EndsCleared(operands: seq<Bytes>) {
    exists i :: 0 <= i < |operands| && Decode(operands[i]) == ClearAll && NothingSetAfter(operands, i)
  }

  /** Merging the operands among themselves first, as a partial merge does, leaves the result alone. */
  ghost predicate PartialMergeIsTransparent(operands: seq<Bytes>) {
    forall base: Option<Bytes> :: Merged(base, [Merged(None, operands)]) == Merged(base, operands)
  }

  /**
  The operator is registered as associative but is not: a partial merge is
  harmless exactly when the operands end by clearing everything.
  */
  lemma PartialMergeIffCleared(operands: seq<Bytes>)
    ensures PartialMergeIsTransparent(operands) <==> EndsCleared(operands)
  {
    hide Decode, WithSet, Merged;
    if EndsCleared(operands) {
      forall base: Option<Bytes> ensures Merged(base, [Merged(None, operands)]) == Merged(base, operands) {
        ClearedWhenEndsCleared(None, operands);
        ClearedWhenEndsCleared(base, operands);
        MergeOne(base, []);
        EmptyOperandClears();
      }
    } else if PartialMergeIsTransparent(operands) {
      var partial := Merged(None, operands);
      assert Merged(None, [partial]) == partial;
      MergeOne(None, partial);
      if partial == [] {
        var base := Some([0]);
        EmptyOperandClears();
        MergeOne(base, []);
        assert Merged(base, [partial]) == Merged(base, operands);
        LengthIsTheHighestSet(base, operands, 0);
        LastClearWitness(operands);
        LengthIsTheHighestSet(None, operands, 0);
      } else {
        SingleSetIsNoSet(Decode(partial));
      }
    }
  }

  /** "+3" and "+5", merged with each other first, are a byte that sets nothing. */
  lemma PartialSetsVanish()
    ensures var plus3: Bytes, plus5: Bytes := AsciiBytes("+3"), AsciiBytes("+5");
            && Merged(None, [plus3, plus5]) == [0x28]
            && Merged(None, [Merged(None, [plus3, plus5])]) == []
            && !PartialMergeIsTransparent([plus3, plus5])
  {
    var plus3: Bytes, plus5: Bytes := AsciiBytes("+3"), AsciiBytes("+5");
    var operands := [plus3, plus5];
    assert "+" + DecimalNat(3) == "+3" && "+" + DecimalNat(5) == "+5";
    DigitOperand(3, plus3);
    DigitOperand(5, plus5);
    hide Decode, WithSet;
    MergeOne(None, plus3);
    assert operands[..1] == [plus3];
    assert Fold([], operands) == WithSet(WithSet([], 3), 5);
    TwoBits();
    ByteIsIgnored();
    MergeOne(None, [0x28]);
  }

  lemma TwoBits()
    ensures WithSet(WithSet([], 3), 5) == [0x28]
  {
    assert WithSet([], 3) == [8] && Bits(8) == 8;
  }

  lemma DigitOperand(n: nat, operand: Bytes)
    requires n <= USIZE_MAX && IsAscii("+" + DecimalNat(n)) && operand == AsciiBytes("+" + DecimalNat(n))
    ensures Decode(operand) == Set(n)
  {
    hide FromUtf8, Trim, Decode, DecimalNat;
    var digits := DecimalNat(n);
    var core := "+" + digits;
    AsciiRoundTrip(core);
    assert IsPosition(digits, n) by {
      assert IsDigit(digits[0]) && digits == ZeroDigits(0) + digits;
    }
    assert IsTrimmed(core) by {
      assert IsDigit(digits[|digits| - 1]);
    }
    assert "" + core + "" == core && core[1..] == digits;
    OperandMeaning(operand, "", core, "", n);
  }

  lemma ByteIsIgnored()
    ensures Decode([0x28]) == Ignored
  {
  }

  lemma MergeOne(base: Option<Bytes>, operand: Bytes)
    ensures Merged(base, [operand]) == Apply(if base.Some? then base.value else [], Decode(operand))
  {
    hide Decode, Apply;
    var start := if base.Some? then base.value else [];
    var operands := [operand];
    assert operands[..|operands| - 1] == [];
    assert Fold(start, operands) == Apply(Fold(start, []), Decode(operand));
  }

  lemma EmptyOperandClears()
    ensures Decode([]) == ClearAll
  {
  }

  lemma ClearedWhenEndsCleared(base: Option<Bytes>, operands: seq<Bytes>)
    requires EndsCleared(operands)
    ensures Merged(base, operands) == []
  {
    hide Decode, Merged;
    LengthIsTheHighestSet(base, operands, 0);
  }

  lemma {:induction false} LastClearWitness(operands: seq<Bytes>)
    requires !NotClearedAfter(operands, -1)
    ensures exists i :: 0 <= i < |operands| && Decode(operands[i]) == ClearAll && NotClearedAfter(operands, i)
  {
    hide Decode;
    var n := |operands| - 1;
    if Decode(operands[n]) == ClearAll {
      assert NotClearedAfter(operands, n);
    } else {
      LastClearWitness(operands[..n]);
      var i :| 0 <= i < n && Decode(operands[..n][i]) == ClearAll && NotClearedAfter(operands[..n], i);
      assert forall j :: 0 <= j < n ==> operands[..n][j] == operands[j];
      assert NotClearedAfter(operands, i);
    }
  }

  /** The byte string of a single position cannot be read as a set operand. */
  lemma SingleSetIsNoSet(op: Operation)
    requires op.Set?
    ensures !Decode(WithSet([], op.pos)).Set?
  {
    hide WithSet, Has;
    var b := WithSet([], op.pos);
    if Decode(b).Set? {
      SetOperandHasPlus(b);
      var i :| 0 <= i < |b| && b[i] == '+' as int;
      PlusHasTwoBits(b, i);
      SetChangesOnePosition([], op.pos, 8 * i);
      SetChangesOnePosition([], op.pos, 8 * i + 1);
      EmptyHasNothing(8 * i);
      EmptyHasNothing(8 * i + 1);
    }
  }

  lemma EmptyHasNothing(p: nat)
    ensures !Has([], p)
  {
  }

  lemma PlusHasTwoBits(b: Bytes, i: nat)
    requires i < |b| && b[i] == '+' as int
    ensures Has(b, 8 * i) && Has(b, 8 * i + 1)
  {
    assert Bits('+' as int) == 0x2B;
  }

  lemma SetOperandHasPlus(b: Bytes)
    requires Decode(b).Set?
    ensures '+' as int in b
  {
    var s := FromUtf8(b).value;
    var trimmed := Trim(s);
    TrimKeepsCharacters(s, trimmed[0]);
    AsciiCharComesFromByte(b, s, '+');
  }
}
