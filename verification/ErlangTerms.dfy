/** Terms of the External Term Format and the tuple operations that edit them (`process_eetf_merge_operation`). */
module ErlangTerms {
  import opened Wrappers
  import opened Text
  import opened Machine

  /** `Opaque` stands for every kind of term that the operations never look into. */
  datatype Term =
    | Atom(name: string)
    | FixInteger(value: i32)
    | BigInteger(number: int)
    | Tuple(elements: seq<Term>)
    | List(elements: seq<Term>)
    | Binary(bytes: Bytes)
    | Opaque(tag: nat)

  /** `Vec::drain` panics on a range that ends before it starts. */
  datatype Outcome = Panic | Value(term: Option<Term>)

  // ---------- vectors ----------

  function Inserted<T>(xs: seq<T>, at: nat, x: T): seq<T>
    requires at <= |xs|
  {
    xs[..at] + [x] + xs[at..]
  }

  function Spliced<T>(xs: seq<T>, at: nat, ins: seq<T>): seq<T>
    requires at <= |xs|
  {
    xs[..at] + ins + xs[at..]
  }

  function Drained<T>(xs: seq<T>, start: nat, end: nat): seq<T>
    requires start <= end <= |xs|
  {
    xs[..start] + xs[end..]
  }

  /** Inserting one element at a time, each after the one before. */
  method InsertEach<T>(xs: seq<T>, at: nat, ins: seq<T>) returns (r: seq<T>)
    requires at <= |xs|
    ensures r == Spliced(xs, at, ins)
  {
    r := xs;
    for i := 0 to |ins|
      invariant r == xs[..at] + ins[..i] + xs[at..]
    {
      assert r[..at + i] == xs[..at] + ins[..i] && r[at + i..] == xs[at..];
      assert ins[..i + 1] == ins[..i] + [ins[i]];
      r := Inserted(r, at + i, ins[i]);
    }
    assert ins[..|ins|] == ins;
  }

  function Without(xs: seq<Term>, dropped: seq<Term>): seq<Term> {
    if xs == [] then []
    else
      var last := xs[|xs| - 1];
      Without(xs[..|xs| - 1], dropped) + if last in dropped then [] else [last]
  }

  method Retain(xs: seq<Term>, dropped: seq<Term>) returns (r: seq<Term>)
    ensures r == Without(xs, dropped)
  {
    r := [];
    for i := 0 to |xs|
      invariant r == Without(xs[..i], dropped)
    {
      assert xs[..i + 1][..i] == xs[..i];
      if xs[i] !in dropped {
        r := r + [xs[i]];
      }
    }
    assert xs[..|xs|] == xs;
  }

  /** Subtraction drops every copy of a listed element and every other element keeps all its copies. */
  lemma {:induction false} WithoutDropsExactly(xs: seq<Term>, dropped: seq<Term>, t: Term)
    ensures multiset(Without(xs, dropped))[t] == if t in dropped then 0 else multiset(xs)[t]
  {
    if xs != [] {
      WithoutDropsExactly(xs[..|xs| - 1], dropped, t);
      assert xs == xs[..|xs| - 1] + [xs[|xs| - 1]];
    }
  }

  /** Subtraction decides element by element and keeps the order. */
  lemma {:induction false} WithoutDistributes(xs: seq<Term>, ys: seq<Term>, dropped: seq<Term>)
    ensures Without(xs + ys, dropped) == Without(xs, dropped) + Without(ys, dropped)
  {
    if ys == [] {
      assert xs + ys == xs;
    } else {
      assert (xs + ys)[..|xs + ys| - 1] == xs + ys[..|ys| - 1];
      WithoutDistributes(xs, ys[..|ys| - 1], dropped);
    }
  }

  // ---------- one operation ----------

  /** What the operation reads from the stored value: anything of another kind counts as empty. */
  function IntOf(existing: Option<Term>): int {
    if existing.Some? && existing.value.FixInteger? then existing.value.value else 0
  }

  function ListOf(existing: Option<Term>): seq<Term> {
    if existing.Some? && existing.value.List? then existing.value.elements else []
  }

  function BinaryOf(existing: Option<Term>): Bytes {
    if existing.Some? && existing.value.Binary? then existing.value.bytes else []
  }

  function IntResult(n: int): Outcome {
    Value(Some(FixInteger(Wrap32(n))))
  }

  function ListResult(xs: seq<Term>): Outcome {
    Value(Some(List(xs)))
  }

  function BinaryResult(b: Bytes): Outcome {
    Value(Some(Binary(b)))
  }

  /** `drain(start..end)` under the bounds test that all three callers share. */
  function DrainedIfInRange<T>(xs: seq<T>, start: nat, end: nat): Option<seq<T>>
  {
    if start > |xs| || end > |xs| then Some(xs)
    else if start > end then None
    else Some(Drained(xs, start, end))
  }

  function SplicedIfInRange<T>(xs: seq<T>, at: nat, ins: seq<T>): seq<T> {
    if at <= |xs| then Spliced(xs, at, ins) else xs
  }

  function Erase(b: Bytes, pos: i32, count: i32): Option<Bytes> {
    DrainedIfInRange(b, AsUsize(pos), WrappingAddUsize(AsUsize(pos), AsUsize(count)))
  }

  function Replace(b: Bytes, pos: i32, count: i32, ins: Bytes): Option<Bytes> {
    var start, end := AsUsize(pos), WrappingAddUsize(AsUsize(pos), AsUsize(count));
    if start > |b| || end > |b| then Some(b)
    else if start > end then None
    else Some(b[..start] + ins + b[end..])
  }

  function DeleteRange(xs: seq<Term>, pos: i32, end: i32): Option<seq<Term>> {
    if AsUsize(pos) < |xs| then DrainedIfInRange(xs, AsUsize(pos), AsUsize(end)) else Some(xs)
  }

  function DeleteAt(xs: seq<Term>, pos: i32): seq<Term> {
    if AsUsize(pos) < |xs| then Drained(xs, AsUsize(pos), AsUsize(pos) + 1) else xs
  }

  predicate IsOperation(operand: Term) {
    operand.Tuple? && |operand.elements| >= 2 && operand.elements[0].Atom?
  }

  function Process(existing: Option<Term>, operand: Term): Outcome {
    if !IsOperation(operand) then Value(existing)
    else
      var args := operand.elements;
      match args[0].name
      case "int_add" =>
        if args[1].FixInteger? then IntResult(IntOf(existing) + args[1].value) else Value(existing)
      case "list_append" =>
        if args[1].List? then ListResult(ListOf(existing) + args[1].elements) else Value(existing)
      case "list_prepend" =>
        if args[1].List? then ListResult(args[1].elements + ListOf(existing)) else Value(existing)
      case "list_subtract" =>
        if args[1].List? then ListResult(Without(ListOf(existing), args[1].elements)) else Value(existing)
      case "list_set" =>
        if |args| >= 3 && args[1].FixInteger? then
          var at := AsUsize(args[1].value);
          var xs := ListOf(existing);
          ListResult(if at < |xs| then xs[at := args[2]] else xs)
        else Value(existing)
      case "list_delete" =>
        if !args[1].FixInteger? then Value(existing)
        else if |args| == 2 then ListResult(DeleteAt(ListOf(existing), args[1].value))
        else if !args[2].FixInteger? then ListResult(ListOf(existing))
        else
          (match DeleteRange(ListOf(existing), args[1].value, args[2].value)
           case Some(xs) => ListResult(xs)
           case None => Panic)
      case "list_insert" =>
        if |args| >= 3 && args[1].FixInteger? && args[2].List? then
          ListResult(SplicedIfInRange(ListOf(existing), AsUsize(args[1].value), args[2].elements))
        else Value(existing)
      case "binary_append" =>
        if args[1].Binary? then BinaryResult(BinaryOf(existing) + args[1].bytes) else Value(existing)
      case "binary_erase" =>
        if |args| >= 3 && args[1].FixInteger? && args[2].FixInteger? then
          (match Erase(BinaryOf(existing), args[1].value, args[2].value)
           case Some(b) => BinaryResult(b)
           case None => Panic)
        else Value(existing)
      case "binary_insert" =>
        if |args| >= 3 && args[1].FixInteger? && args[2].Binary? then
          BinaryResult(SplicedIfInRange(BinaryOf(existing), AsUsize(args[1].value), args[2].bytes))
        else Value(existing)
      case "binary_replace" =>
        if |args| >= 4 && args[1].FixInteger? && args[2].FixInteger? && args[3].Binary? then
          (match Replace(BinaryOf(existing), args[1].value, args[2].value, args[3].bytes)
           case Some(b) => BinaryResult(b)
           case None => Panic)
        else Value(existing)
      case _ => Value(existing)
  }

  lemma SplicedInFront(xs: seq<Term>, ins: seq<Term>)
    ensures Spliced(xs, 0, ins) == ins + xs
  {
  }

  lemma SplicedIntoDrained(b: Bytes, start: nat, end: nat, ins: Bytes)
    requires start <= end <= |b|
    ensures |Drained(b, start, end)| >= start
    ensures Spliced(Drained(b, start, end), start, ins) == b[..start] + ins + b[end..]
  {
  }

  method ProcessMergeOperation(existing: Option<Term>, operand: Term) returns (outcome: Outcome)
    ensures outcome == Process(existing, operand)
  {
    hide AsUsize, WrappingAddUsize, Wrap32, Spliced, Drained, Without;
    if IsOperation(operand) {
      var args := operand.elements;
      var xs, b := ListOf(existing), BinaryOf(existing);
      match args[0].name
      case "int_add" =>
        if args[1].FixInteger? {
          return IntResult(IntOf(existing) + args[1].value);
        }
      case "list_append" =>
        if args[1].List? {
          return ListResult(xs + args[1].elements);
        }
      case "list_prepend" =>
        if args[1].List? {
          var r := InsertEach(xs, 0, args[1].elements);
          SplicedInFront(xs, args[1].elements);
          return ListResult(r);
        }
      case "list_subtract" =>
        if args[1].List? {
          var r := Retain(xs, args[1].elements);
          return ListResult(r);
        }
      case "list_set" =>
        if |args| >= 3 && args[1].FixInteger? {
          var index := AsUsize(args[1].value);
          if index < |xs| {
            xs := xs[index := args[2]];
          }
          return ListResult(xs);
        }
      case "list_delete" =>
        if args[1].FixInteger? {
          var start := AsUsize(args[1].value);
          if |args| >= 3 {
            if args[2].FixInteger? {
              var end := AsUsize(args[2].value);
              if start < |xs| && end <= |xs| {
                if start > end {
                  return Panic;
                }
                xs := Drained(xs, start, end);
              }
            }
          } else if start < |xs| {
            xs := Drained(xs, start, start + 1);
          }
          return ListResult(xs);
        }
      case "list_insert" =>
        if |args| >= 3 && args[1].FixInteger? && args[2].List? {
          var index := AsUsize(args[1].value);
          if index <= |xs| {
            xs := InsertEach(xs, index, args[2].elements);
          }
          return ListResult(xs);
        }
      case "binary_append" =>
        if args[1].Binary? {
          return BinaryResult(b + args[1].bytes);
        }
      case "binary_erase" =>
        if |args| >= 3 && args[1].FixInteger? && args[2].FixInteger? {
          var start := AsUsize(args[1].value);
          var end := WrappingAddUsize(start, AsUsize(args[2].value));
          if start <= |b| && end <= |b| {
            if start > end {
              return Panic;
            }
            b := Drained(b, start, end);
          }
          return BinaryResult(b);
        }
      case "binary_insert" =>
        if |args| >= 3 && args[1].FixInteger? && args[2].Binary? {
          var at := AsUsize(args[1].value);
          if at <= |b| {
            b := InsertEach(b, at, args[2].bytes);
          }
          return BinaryResult(b);
        }
      case "binary_replace" =>
        if |args| >= 4 && args[1].FixInteger? && args[2].FixInteger? && args[3].Binary? {
          var start := AsUsize(args[1].value);
          var end := WrappingAddUsize(start, AsUsize(args[2].value));
          if start <= |b| && end <= |b| {
            if start > end {
              return Panic;
            }
            SplicedIntoDrained(b, start, end, args[3].bytes);
            b := Drained(b, start, end);
            b := InsertEach(b, start, args[3].bytes);
          }
          return BinaryResult(b);
        }
      case _ =>
    }
    return Value(existing);
  }

  // ---------- operands as callers write them ----------

  function IntAdd(n: i32): Term {
    Tuple([Atom("int_add"), FixInteger(n)])
  }

  function ListInsert(pos: i32, xs: seq<Term>): Term {
    Tuple([Atom("list_insert"), FixInteger(pos), List(xs)])
  }

  function ListAppend(xs: seq<Term>): Term {
    Tuple([Atom("list_append"), List(xs)])
  }

  function ListPrepend(xs: seq<Term>): Term {
    Tuple([Atom("list_prepend"), List(xs)])
  }

  function ListSubtract(xs: seq<Term>): Term {
    Tuple([Atom("list_subtract"), List(xs)])
  }

  function ListSet(pos: i32, t: Term): Term {
    Tuple([Atom("list_set"), FixInteger(pos), t])
  }

  function ListDelete(pos: i32): Term {
    Tuple([Atom("list_delete"), FixInteger(pos)])
  }

  function BinaryAppend(b: Bytes): Term {
    Tuple([Atom("binary_append"), Binary(b)])
  }

  function ListDeleteRange(start: i32, end: i32): Term {
    Tuple([Atom("list_delete"), FixInteger(start), FixInteger(end)])
  }

  function BinaryInsert(pos: i32, b: Bytes): Term {
    Tuple([Atom("binary_insert"), FixInteger(pos), Binary(b)])
  }

  function BinaryErase(pos: i32, count: i32): Term {
    Tuple([Atom("binary_erase"), FixInteger(pos), FixInteger(count)])
  }

  function BinaryReplace(pos: i32, count: i32, b: Bytes): Term {
    Tuple([Atom("binary_replace"), FixInteger(pos), FixInteger(count), Binary(b)])
  }

  /** Applying operands in order; a panic ends the merge. */
  function Fold(existing: Option<Term>, operands: seq<Term>): Outcome {
    if operands == [] then Value(existing)
    else
      match Fold(existing, operands[..|operands| - 1])
      case Panic => Panic
      case Value(t) => Process(t, operands[|operands| - 1])
  }

  function FoldFrom(start: Outcome, operands: seq<Term>): Outcome {
    match start
    case Panic => Panic
    case Value(t) => Fold(t, operands)
  }

  lemma {:induction false} FoldComposes(existing: Option<Term>, xs: seq<Term>, ys: seq<Term>)
    ensures Fold(existing, xs + ys) == FoldFrom(Fold(existing, xs), ys)
  {
    hide Process;
    if ys == [] {
      assert xs + ys == xs;
    } else {
      FoldComposes(existing, xs, ys[..|ys| - 1]);
      assert (xs + ys)[..|xs + ys| - 1] == xs + ys[..|ys| - 1];
    }
  }

  lemma FoldTwo(existing: Option<Term>, a: Term, b: Term)
    ensures Fold(existing, [a, b]) == FoldFrom(Process(existing, a), [b])
    ensures Fold(existing, [a]) == Process(existing, a)
  {
    hide Process;
    assert [a, b] == [a] + [b];
    FoldComposes(existing, [a], [b]);
    assert Fold(existing, [a][..0]) == Value(existing);
  }

  /** The kind of value that an operation edits. */
  predicate Edits(name: string, t: Term) {
    match name
    case "int_add" => t.FixInteger?
    case "binary_append" => t.Binary?
    case "binary_erase" => t.Binary?
    case "binary_insert" => t.Binary?
    case "binary_replace" => t.Binary?
    case _ => t.List?
  }

  /**
  An operation either leaves the value alone or yields its own kind of value; a
  stored value of another kind then counts for no more than an absent one.
  */
  lemma OtherKindsCountAsAbsent(existing: Option<Term>, operand: Term)
    requires IsOperation(operand) && Process(existing, operand) != Value(existing)
    ensures Process(existing, operand).Value? ==>
              var t := Process(existing, operand).term; t.Some? && Edits(operand.elements[0].name, t.value)
    ensures existing.Some? && !Edits(operand.elements[0].name, existing.value) ==>
              Process(existing, operand) == Process(None, operand)
  {
  }

  // ---------- what each operation answers ----------

  /** Addition wraps once around the 32-bit range at most. */
  lemma IntegerOperation(n: i32, m: i32)
    ensures Process(Some(FixInteger(n)), IntAdd(m))
            == Value(Some(FixInteger(if n + m > I32_MAX then n + m - 2 * TWO31
                                     else if n + m < I32_MIN then n + m + 2 * TWO31
                                     else n + m)))
  {
  }

  lemma ListOperations(xs: seq<Term>, pos: i32, end: i32, ins: seq<Term>, t: Term)
    requires |xs| < TWO63
    ensures Process(Some(List(xs)), ListAppend(ins)) == Value(Some(List(xs + ins)))
    ensures Process(Some(List(xs)), ListPrepend(ins)) == Value(Some(List(ins + xs)))
    ensures Process(Some(List(xs)), ListSet(pos, t)) == Value(Some(List(if 0 <= pos < |xs| then xs[pos := t] else xs)))
    ensures Process(Some(List(xs)), ListInsert(pos, ins))
            == Value(Some(List(if 0 <= pos <= |xs| then xs[..pos] + ins + xs[pos..] else xs)))
    ensures Process(Some(List(xs)), ListDelete(pos))
            == Value(Some(List(if 0 <= pos < |xs| then xs[..pos] + xs[pos + 1..] else xs)))
    ensures Process(Some(List(xs)), ListDeleteRange(pos, end))
            == if 0 <= end < pos < |xs| then Panic
               else Value(Some(List(if 0 <= pos < |xs| && 0 <= end <= |xs| then xs[..pos] + xs[end..] else xs)))
  {
  }

  lemma BinaryOperations(b: Bytes, pos: i32, count: i32, ins: Bytes)
    requires |b| < TWO63
    ensures var panics := count < 0 && 0 <= pos <= |b| && 0 <= pos + count;
            var inside := 0 <= pos && 0 <= count && pos + count <= |b|;
            && Process(Some(Binary(b)), BinaryAppend(ins)) == Value(Some(Binary(b + ins)))
            && Process(Some(Binary(b)), BinaryInsert(pos, ins))
               == Value(Some(Binary(if 0 <= pos <= |b| then b[..pos] + ins + b[pos..] else b)))
            && Process(Some(Binary(b)), BinaryErase(pos, count))
               == (if panics then Panic else Value(Some(Binary(if inside then b[..pos] + b[pos + count..] else b))))
            && Process(Some(Binary(b)), BinaryReplace(pos, count, ins))
               == if panics then Panic else Value(Some(Binary(if inside then b[..pos] + ins + b[pos + count..] else b)))
  {
    ProcessEdits(b, pos, count, ins);
  }

  /** Subtraction answers a list in which every listed element is gone and every other keeps all its copies, */
  lemma SubtractDropsExactly(xs: seq<Term>, dropped: seq<Term>) returns (r: seq<Term>)
    ensures Process(Some(List(xs)), ListSubtract(dropped)) == Value(Some(List(r)))
    ensures forall t :: multiset(r)[t] == if t in dropped then 0 else multiset(xs)[t]
  {
    r := Without(xs, dropped);
    forall t ensures multiset(r)[t] == if t in dropped then 0 else multiset(xs)[t] {
      WithoutDropsExactly(xs, dropped, t);
    }
  }

  /** and which keeps the order: what is left of two lists in a row are the two rests in a row. */
  lemma SubtractDistributes(xs: seq<Term>, ys: seq<Term>, dropped: seq<Term>)
    ensures exists r, r' ::
              && Process(Some(List(xs)), ListSubtract(dropped)) == ListResult(r)
              && Process(Some(List(ys)), ListSubtract(dropped)) == ListResult(r')
              && Process(Some(List(xs + ys)), ListSubtract(dropped)) == ListResult(r + r')
  {
    WithoutDistributes(xs, ys, dropped);
    var r, r' := Without(xs, dropped), Without(ys, dropped);
    assert Process(Some(List(xs)), ListSubtract(dropped)) == ListResult(r);
    assert Process(Some(List(ys)), ListSubtract(dropped)) == ListResult(r');
  }

  /**
  The operand that an operation amounts to: further elements are ignored, a range
  whose end is no integer deletes nothing, and with arguments of other kinds it is
  no operation at all.
  */
  function Plain(operand: Term): Option<Term> {
    if !IsOperation(operand) then None
    else
      var name, args := operand.elements[0].name, operand.elements[1..];
      if name == "list_delete" && |args| >= 2 && args[0].FixInteger? then
        Some(if args[1].FixInteger? then ListDeleteRange(args[0].value, args[1].value) else ListAppend([]))
      else if name == "list_delete" && args[0].FixInteger? then Some(ListDelete(args[0].value))
      else if name == "int_add" && args[0].FixInteger? then Some(IntAdd(args[0].value))
      else if name == "list_append" && args[0].List? then Some(ListAppend(args[0].elements))
      else if name == "list_prepend" && args[0].List? then Some(ListPrepend(args[0].elements))
      else if name == "list_subtract" && args[0].List? then Some(ListSubtract(args[0].elements))
      else if name == "binary_append" && args[0].Binary? then Some(BinaryAppend(args[0].bytes))
      else if |args| < 2 || !args[0].FixInteger? then None
      else if name == "list_set" then Some(ListSet(args[0].value, args[1]))
      else if name == "list_insert" && args[1].List? then Some(ListInsert(args[0].value, args[1].elements))
      else if name == "binary_insert" && args[1].Binary? then Some(BinaryInsert(args[0].value, args[1].bytes))
      else if !args[1].FixInteger? then None
      else if name == "binary_erase" then Some(BinaryErase(args[0].value, args[1].value))
      else if name == "binary_replace" && |args| >= 3 && args[2].Binary? then
        Some(BinaryReplace(args[0].value, args[1].value, args[2].bytes))
      else None
  }

  const POSITIONED := {"list_set", "list_insert", "list_delete"}

  ghost predicate ActsPlainly(existing: Option<Term>, operand: Term) {
    Process(existing, operand)
    == if Plain(operand).Some? then Process(existing, Plain(operand).value) else Value(existing)
  }

  lemma PositionedOperandIsPlain(existing: Option<Term>, operand: Term)
    requires IsOperation(operand) && operand.elements[0].name in POSITIONED
    ensures ActsPlainly(existing, operand)
  {
    assert ListOf(existing) + [] == ListOf(existing);
  }

  lemma BinaryOperandIsPlain(existing: Option<Term>, operand: Term)
    requires IsOperation(operand) && Edits(operand.elements[0].name, Binary([]))
    ensures ActsPlainly(existing, operand)
  {
  }

  lemma OtherOperandIsPlain(existing: Option<Term>, operand: Term)
    requires IsOperation(operand) ==>
               operand.elements[0].name !in POSITIONED && !Edits(operand.elements[0].name, Binary([]))
    ensures ActsPlainly(existing, operand)
  {
  }

  /** Every operand acts as the plain one it amounts to. */
  lemma OperandsArePlain(existing: Option<Term>, operand: Term)
    ensures Process(existing, operand)
            == if Plain(operand).Some? then Process(existing, Plain(operand).value) else Value(existing)
  {
    assert ActsPlainly(existing, operand) by {
      hide ActsPlainly, Edits;
      if IsOperation(operand) && operand.elements[0].name in POSITIONED {
        PositionedOperandIsPlain(existing, operand);
      } else if IsOperation(operand) && Edits(operand.elements[0].name, Binary([])) {
        BinaryOperandIsPlain(existing, operand);
      } else {
        OtherOperandIsPlain(existing, operand);
      }
    }
    hide Process, Plain;
  }

  // ---------- operands that edit ----------

  /** Whether an operand edits does not depend on the value it meets. */
  predicate IsEdit(operand: Term) {
    Process(None, operand) != Value(None)
  }

  lemma EditsAreEditsOfAll(existing: Option<Term>, operand: Term)
    ensures !IsEdit(operand) ==> Process(existing, operand) == Value(existing)
    ensures IsEdit(operand) ==> IsOperation(operand)
    ensures IsEdit(operand) && Process(existing, operand).Value? ==>
              var t := Process(existing, operand).term; t.Some? && Edits(operand.elements[0].name, t.value)
    ensures IsEdit(operand) && (existing.Some? ==> !Edits(operand.elements[0].name, existing.value)) ==>
              Process(existing, operand) == Process(None, operand)
  {
  }

  /** An absent value is edited like the empty value of the kind that the operation edits. */
  lemma AbsentCountsAsEmpty(operand: Term)
    requires IsEdit(operand)
    ensures var name := operand.elements[0].name;
            && IsOperation(operand)
            && (name == "int_add" ==> Process(None, operand) == Process(Some(FixInteger(0)), operand))
            && (Edits(name, List([])) ==> Process(None, operand) == Process(Some(List([])), operand))
            && (Edits(name, Binary([])) ==> Process(None, operand) == Process(Some(Binary([])), operand))
  {
  }

  /** The place of the first operand that edits, or the number of operands if none does. */
  function FirstEdit(operands: seq<Term>): (k: nat)
    ensures k <= |operands| && (k < |operands| ==> IsEdit(operands[k]) && IsOperation(operands[k]))
    ensures forall i :: 0 <= i < k ==> !IsEdit(operands[i])
  {
    if operands == [] then 0
    else if IsEdit(operands[0]) then
      EditsAreEditsOfAll(None, operands[0]);
      0
    else 1 + FirstEdit(operands[1..])
  }

  lemma NothingFolds(existing: Option<Term>)
    ensures Fold(existing, []) == Value(existing)
  {
  }

  lemma FoldOneMore(existing: Option<Term>, operand: Term, rest: seq<Term>)
    ensures Fold(existing, [operand] + rest) == FoldFrom(Process(existing, operand), rest)
  {
    hide Process;
    FoldComposes(existing, [operand], rest);
    FoldTwo(existing, operand, operand);
  }

  /** Without an edit nothing happens; otherwise everything starts with the first edit. */
  lemma {:induction false} FoldStartsWithFirstEdit(existing: Option<Term>, operands: seq<Term>)
    ensures var k := FirstEdit(operands);
            Fold(existing, operands)
            == if k == |operands| then Value(existing)
               else FoldFrom(Process(existing, operands[k]), operands[k + 1..])
  {
    hide Process, IsEdit, Fold;
    NothingFolds(existing);
    if operands != [] {
      var rest := operands[1..];
      assert operands == [operands[0]] + rest;
      FoldOneMore(existing, operands[0], rest);
      if !IsEdit(operands[0]) {
        EditsAreEditsOfAll(existing, operands[0]);
        FoldStartsWithFirstEdit(existing, rest);
        var k := FirstEdit(rest);
        assert k < |rest| ==> rest[k + 1..] == operands[k + 2..];
      }
    }
  }

  /**
  When operands yield the same whether they meet a term or nothing: some operand
  must edit, and it suffices that the first one that does edits another kind.
  */
  lemma TermIsForgottenIff(t: Term, operands: seq<Term>)
    ensures var k := FirstEdit(operands);
            Fold(Some(t), operands) == Fold(None, operands)
            <==> && k < |operands|
                 && (Edits(operands[k].elements[0].name, t) ==>
                       FoldFrom(Process(Some(t), operands[k]), operands[k + 1..])
                       == FoldFrom(Process(None, operands[k]), operands[k + 1..]))
  {
    hide Process, IsEdit, Edits, FirstEdit;
    var k := FirstEdit(operands);
    FoldStartsWithFirstEdit(Some(t), operands);
    FoldStartsWithFirstEdit(None, operands);
    if k < |operands| {
      EditsAreEditsOfAll(Some(t), operands[k]);
    }
  }

  /** Different integers stay different until an operand edits another kind. */
  lemma {:induction false} IntegersStayApartIff(a: i32, b: i32, operands: seq<Term>)
    requires a != b
    ensures Fold(Some(FixInteger(a)), operands) == Fold(Some(FixInteger(b)), operands)
            <==> exists i :: 0 <= i < |operands| && IsEdit(operands[i]) && !IsIntAdd(operands[i])
    decreases |operands|
  {
    hide Process, IsEdit, IsIntAdd, Fold, Wrap32;
    NothingFolds(Some(FixInteger(a)));
    NothingFolds(Some(FixInteger(b)));
    if operands != [] {
      var first, rest := operands[0], operands[1..];
      assert operands == [first] + rest;
      assert forall i :: 0 <= i < |rest| ==> rest[i] == operands[i + 1];
      FoldOneMore(Some(FixInteger(a)), first, rest);
      FoldOneMore(Some(FixInteger(b)), first, rest);
      IntegersMeet(a, b, first);
      if !IsEdit(first) {
        IntegersStayApartIff(a, b, rest);
      } else if IsIntAdd(first) {
        var n := first.elements[1].value;
        IntegersStayApartIff(Wrap32(a + n), Wrap32(b + n), rest);
      }
      if i :| 0 <= i < |operands| && IsEdit(operands[i]) && !IsIntAdd(operands[i]) && i > 0 {
        assert rest[i - 1] == operands[i];
      }
    }
  }

  lemma IntegersMeet(a: i32, b: i32, operand: Term)
    requires a != b
    ensures !IsEdit(operand) ==>
              forall c: i32 :: c == a || c == b ==> Process(Some(FixInteger(c)), operand) == Value(Some(FixInteger(c)))
    ensures IsEdit(operand) && !IsIntAdd(operand) ==>
              Process(Some(FixInteger(a)), operand) == Process(Some(FixInteger(b)), operand)
    ensures IsIntAdd(operand) ==> operand.Tuple? && |operand.elements| >= 2 && operand.elements[1].FixInteger?
    ensures IsIntAdd(operand) ==>
              var n := operand.elements[1].value;
              && Wrap32(a + n) != Wrap32(b + n)
              && Process(Some(FixInteger(a)), operand) == IntResult(a + n)
              && Process(Some(FixInteger(b)), operand) == IntResult(b + n)
  {
    if IsIntAdd(operand) {
      var n: int := operand.elements[1].value;
      WrapAbsorbs(a + n, -n, TWO31);
      WrapAbsorbs(b + n, -n, TWO31);
    }
  }

  /** An integer is forgotten by any edit if it is zero, and otherwise by an edit of another kind only. */
  lemma {:induction false} IntegerIsForgottenIff(n: i32, operands: seq<Term>)
    ensures Fold(Some(FixInteger(n)), operands) == Fold(None, operands)
            <==> exists i :: 0 <= i < |operands| && IsEdit(operands[i]) && (n == 0 || !IsIntAdd(operands[i]))
    decreases |operands|
  {
    hide Process, IsEdit, IsIntAdd, Fold, Wrap32;
    NothingFolds(Some(FixInteger(n)));
    NothingFolds(None);
    if operands != [] {
      var first, rest := operands[0], operands[1..];
      assert operands == [first] + rest;
      assert forall i :: 0 <= i < |rest| ==> rest[i] == operands[i + 1];
      FoldOneMore(Some(FixInteger(n)), first, rest);
      FoldOneMore(None, first, rest);
      IntegerMeetsNothing(n, first);
      if !IsEdit(first) {
        IntegerIsForgottenIff(n, rest);
      } else if IsIntAdd(first) && n != 0 {
        var m := first.elements[1].value;
        IntegersStayApartIff(Wrap32(n + m), Wrap32(m), rest);
      }
      if i :| 0 <= i < |operands| && IsEdit(operands[i]) && (n == 0 || !IsIntAdd(operands[i])) && i > 0 {
        assert rest[i - 1] == operands[i];
      }
    }
  }

  lemma IntegerMeetsNothing(n: i32, operand: Term)
    ensures !IsEdit(operand) ==>
              && Process(Some(FixInteger(n)), operand) == Value(Some(FixInteger(n)))
              && Process(None, operand) == Value(None)
    ensures IsEdit(operand) && !IsIntAdd(operand) ==> Process(Some(FixInteger(n)), operand) == Process(None, operand)
    ensures IsIntAdd(operand) ==> operand.Tuple? && |operand.elements| >= 2 && operand.elements[1].FixInteger?
    ensures IsIntAdd(operand) ==>
              var m := operand.elements[1].value;
              && Process(Some(FixInteger(n)), operand) == IntResult(n + m)
              && Process(None, operand) == IntResult(m)
              && (n != 0 ==> Wrap32(n + m) != Wrap32(m))
  {
    if n != 0 {
      IntegersMeet(n, 0, operand);
    }
  }

  // ---------- what edits do to one another ----------

  /** `Vec` lengths never reach the values that negative positions sign-extend to. */
  lemma NegativePositionsAreOutOfRange(b: Bytes, pos: i32, count: i32, ins: Bytes)
    requires |b| < TWO63 && pos < 0
    ensures Process(Some(Binary(b)), BinaryInsert(pos, ins)) == BinaryResult(b)
    ensures Process(Some(Binary(b)), BinaryErase(pos, count)) == BinaryResult(b)
    ensures Process(Some(Binary(b)), BinaryReplace(pos, count, ins)) == BinaryResult(b)
  {
  }

  /** Nor do list operations reach them, neither as a position nor as the end of a range. */
  lemma NegativeListPositionsAreOutOfRange(xs: seq<Term>, pos: i32, end: i32, t: Term, ins: seq<Term>)
    requires |xs| < TWO63
    ensures pos < 0 ==>
              && Process(Some(List(xs)), ListInsert(pos, ins)) == ListResult(xs)
              && Process(Some(List(xs)), ListSet(pos, t)) == ListResult(xs)
              && Process(Some(List(xs)), ListDelete(pos)) == ListResult(xs)
    ensures pos < 0 || end < 0 ==> Process(Some(List(xs)), ListDeleteRange(pos, end)) == ListResult(xs)
  {
  }

  /** Erasing panics exactly when a negative count reaches back no further than the position. */
  lemma ErasePanicsIff(b: Bytes, pos: i32, count: i32)
    requires |b| < TWO63
    ensures Process(Some(Binary(b)), BinaryErase(pos, count)) == Panic
            <==> count < 0 && 0 <= pos <= |b| && 0 <= pos + count
  {
  }

  lemma ProcessEdits(b: Bytes, pos: i32, count: i32, ins: Bytes)
    ensures Process(Some(Binary(b)), BinaryInsert(pos, ins)) == BinaryResult(SplicedIfInRange(b, AsUsize(pos), ins))
    ensures Process(Some(Binary(b)), BinaryErase(pos, count))
            == match Erase(b, pos, count) { case Some(r) => BinaryResult(r) case None => Panic }
    ensures Process(Some(Binary(b)), BinaryReplace(pos, count, ins))
            == match Replace(b, pos, count, ins) { case Some(r) => BinaryResult(r) case None => Panic }
  {
  }

  lemma EraseInserted(b: Bytes, pos: i32, ins: Bytes)
    requires |b| + |ins| < TWO63 && |ins| <= I32_MAX
    ensures Erase(SplicedIfInRange(b, AsUsize(pos), ins), pos, |ins|) == Some(b)
  {
    if 0 <= pos <= |b| {
      assert Drained(Spliced(b, pos, ins), pos, pos + |ins|) == b;
    }
  }

  /** Erasing what was inserted restores the binary, wherever the position lies. */
  lemma InsertThenErase(b: Bytes, pos: i32, ins: Bytes)
    requires |b| + |ins| < TWO63 && |ins| <= I32_MAX
    ensures Fold(Some(Binary(b)), [BinaryInsert(pos, ins), BinaryErase(pos, |ins|)]) == BinaryResult(b)
  {
    hide Process, AsUsize, SplicedIfInRange, Erase, BinaryInsert, BinaryErase;
    FoldTwo(Some(Binary(b)), BinaryInsert(pos, ins), BinaryErase(pos, |ins|));
    ProcessEdits(b, pos, |ins|, ins);
    var inserted := SplicedIfInRange(b, AsUsize(pos), ins);
    FoldTwo(Some(Binary(inserted)), BinaryErase(pos, |ins|), BinaryErase(pos, |ins|));
    ProcessEdits(inserted, pos, |ins|, ins);
    EraseInserted(b, pos, ins);
  }

  /** Deleting the range that was inserted restores the list, wherever the position lies. */
  lemma InsertThenDeleteRange(xs: seq<Term>, pos: i32, ins: seq<Term>)
    requires |xs| + |ins| < TWO63 && pos + |ins| <= I32_MAX
    ensures Fold(Some(List(xs)), [ListInsert(pos, ins), ListDeleteRange(pos, pos + |ins|)]) == ListResult(xs)
  {
    hide Process, AsUsize, SplicedIfInRange, DeleteRange, ListInsert, ListDeleteRange;
    var delete := ListDeleteRange(pos, pos + |ins|);
    FoldTwo(Some(List(xs)), ListInsert(pos, ins), delete);
    ProcessListEdits(xs, pos, pos + |ins|, ins);
    var inserted := SplicedIfInRange(xs, AsUsize(pos), ins);
    FoldTwo(Some(List(inserted)), delete, delete);
    ProcessListEdits(inserted, pos, pos + |ins|, ins);
    DeleteInserted(xs, pos, ins);
  }

  lemma ProcessListEdits(xs: seq<Term>, pos: i32, end: i32, ins: seq<Term>)
    ensures Process(Some(List(xs)), ListInsert(pos, ins)) == ListResult(SplicedIfInRange(xs, AsUsize(pos), ins))
    ensures Process(Some(List(xs)), ListDelete(pos)) == ListResult(DeleteAt(xs, pos))
    ensures Process(Some(List(xs)), ListDeleteRange(pos, end))
            == match DeleteRange(xs, pos, end) { case Some(r) => ListResult(r) case None => Panic }
  {
  }

  lemma DeleteInserted(xs: seq<Term>, pos: i32, ins: seq<Term>)
    requires |xs| + |ins| < TWO63 && pos + |ins| <= I32_MAX
    ensures DeleteRange(SplicedIfInRange(xs, AsUsize(pos), ins), pos, pos + |ins|) == Some(xs)
  {
    if 0 <= pos <= |xs| {
      assert Drained(Spliced(xs, pos, ins), pos, pos + |ins|) == xs;
      assert ins == [] ==> Spliced(xs, pos, ins) == xs;
    }
  }

  /** Appending and prepending are insertions at the two ends. */
  lemma EndsAreInsertions(existing: Option<Term>, xs: seq<Term>, b: Bytes)
    requires |ListOf(existing)| <= I32_MAX && |BinaryOf(existing)| <= I32_MAX
    ensures Process(existing, ListPrepend(xs)) == Process(existing, ListInsert(0, xs))
    ensures Process(existing, ListAppend(xs)) == Process(existing, ListInsert(|ListOf(existing)|, xs))
    ensures Process(existing, BinaryAppend(b)) == Process(existing, BinaryInsert(|BinaryOf(existing)|, b))
  {
    var ts, bs := ListOf(existing), BinaryOf(existing);
    assert Spliced(ts, 0, xs) == xs + ts;
    assert Spliced(ts, |ts|, xs) == ts + xs;
    assert Spliced(bs, |bs|, b) == bs + b;
  }

  /** Deleting one position is deleting the range of that position, in range or not. */
  lemma DeleteIsRangeOfOne(xs: seq<Term>, pos: i32)
    requires |xs| < TWO63 && pos < I32_MAX
    ensures Process(Some(List(xs)), ListDelete(pos)) == Process(Some(List(xs)), ListDeleteRange(pos, pos + 1))
  {
  }

  lemma ProcessSet(xs: seq<Term>, pos: i32, t: Term)
    ensures Process(Some(List(xs)), ListSet(pos, t))
            == ListResult(if AsUsize(pos) < |xs| then xs[AsUsize(pos) := t] else xs)
  {
  }

  /** Setting a position is deleting it and inserting there, except just past the end. */
  lemma SetIsDeleteThenInsertIff(xs: seq<Term>, pos: i32, t: Term)
    requires |xs| < TWO63
    ensures Process(Some(List(xs)), ListSet(pos, t)) == Fold(Some(List(xs)), [ListDelete(pos), ListInsert(pos, [t])])
            <==> pos != |xs|
  {
    hide ListDelete, ListInsert;
    FoldTwo(Some(List(xs)), ListDelete(pos), ListInsert(pos, [t]));
    ProcessListEdits(xs, pos, pos, [t]);
    ProcessSet(xs, pos, t);
    hide Process, ListSet;
    var deleted := DeleteAt(xs, pos);
    FoldTwo(Some(List(deleted)), ListInsert(pos, [t]), ListInsert(pos, [t]));
    ProcessListEdits(deleted, pos, pos, [t]);
    if 0 <= pos < |xs| {
      assert Spliced(deleted, pos, [t]) == xs[pos := t];
    } else if pos == |xs| {
      assert |Spliced(deleted, pos, [t])| == |xs| + 1;
    }
  }

  /** A range deletion panics exactly when it ends before it starts, inside the list. */
  lemma DeleteRangePanicsIff(xs: seq<Term>, start: i32, end: i32)
    requires |xs| < TWO63
    ensures Process(Some(List(xs)), ListDeleteRange(start, end)) == Panic <==> 0 <= end < start < |xs|
  {
  }

  /**
  A replacement is an erasure and an insertion, except where the position is
  inside but the range does not end inside: then the erasure does nothing and the
  insertion still happens, unless a range that ends before it starts panics in both.
  */
  lemma ReplaceIsEraseThenInsertIff(b: Bytes, pos: i32, count: i32, ins: Bytes)
    requires |b| < TWO63
    ensures Process(Some(Binary(b)), BinaryReplace(pos, count, ins))
            == Fold(Some(Binary(b)), [BinaryErase(pos, count), BinaryInsert(pos, ins)])
            <==> pos < 0 || pos > |b| || ins == [] || 0 <= pos + count <= |b|
  {
    hide Process, BinaryReplace, BinaryErase, BinaryInsert;
    FoldTwo(Some(Binary(b)), BinaryErase(pos, count), BinaryInsert(pos, ins));
    ProcessEdits(b, pos, count, ins);
    var erased := if 0 <= pos && 0 <= count && pos + count <= |b| then Drained(b, pos, pos + count) else b;
    FoldTwo(Some(Binary(erased)), BinaryInsert(pos, ins), BinaryInsert(pos, ins));
    ProcessEdits(erased, pos, count, ins);
    if 0 <= pos && 0 <= count && pos + count <= |b| {
      assert Spliced(erased, pos, ins) == b[..pos] + ins + b[pos + count..];
    } else if 0 <= pos <= |b| {
      assert |Spliced(b, pos, ins)| == |b| + |ins|;
      assert ins == [] ==> Spliced(b, pos, ins) == b;
    }
  }

  /** Two bytes of a single one cannot be replaced, but they can be "erased" before an insertion. */
  lemma ReplacePastTheEnd()
    ensures Process(Some(Binary([1])), BinaryReplace(0, 2, [7])) == BinaryResult([1])
    ensures Fold(Some(Binary([1])), [BinaryErase(0, 2), BinaryInsert(0, [7])]) == BinaryResult([7, 1])
  {
    var b: Bytes, ins: Bytes := [1], [7];
    FoldTwo(Some(Binary(b)), BinaryErase(0, 2), BinaryInsert(0, ins));
    FoldTwo(Some(Binary(b)), BinaryInsert(0, ins), BinaryInsert(0, ins));
    assert Spliced(b, 0, ins) == [7, 1];
  }

  lemma ReplaceReplaced(b: Bytes, pos: i32, count: i32, ins: Bytes)
    requires 0 <= pos && 0 <= count && pos + count <= |b| && |b| + |ins| < TWO63 && |ins| <= I32_MAX
    ensures var replaced := b[..pos] + ins + b[pos + count..];
            && Replace(b, pos, count, ins) == Some(replaced)
            && Replace(replaced, pos, |ins|, b[pos..pos + count]) == Some(b)
  {
    var replaced := b[..pos] + ins + b[pos + count..];
    assert replaced[..pos] + b[pos..pos + count] + replaced[pos + |ins|..] == b;
  }

  /** Putting the replaced bytes back undoes a replacement. */
  lemma ReplaceBack(b: Bytes, pos: i32, count: i32, ins: Bytes)
    requires 0 <= pos && 0 <= count && pos + count <= |b| && |b| + |ins| < TWO63 && |ins| <= I32_MAX
    ensures Fold(Some(Binary(b)), [BinaryReplace(pos, count, ins), BinaryReplace(pos, |ins|, b[pos..pos + count])])
            == BinaryResult(b)
  {
    hide Process, BinaryReplace, Replace, AsUsize;
    var removed := b[pos..pos + count];
    var back := BinaryReplace(pos, |ins|, removed);
    FoldTwo(Some(Binary(b)), BinaryReplace(pos, count, ins), back);
    ProcessEdits(b, pos, count, ins);
    var replaced := b[..pos] + ins + b[pos + count..];
    FoldTwo(Some(Binary(replaced)), back, back);
    ProcessEdits(replaced, pos, |ins|, removed);
    ReplaceReplaced(b, pos, count, ins);
  }

  // ---------- integer addition ----------

  predicate IsIntAdd(operand: Term) {
    IsOperation(operand) && operand.elements[0].name == "int_add" && operand.elements[1].FixInteger?
  }

  predicate AllIntAdds(operands: seq<Term>) {
    forall i :: 0 <= i < |operands| ==> IsIntAdd(operands[i])
  }

  function Total(operands: seq<Term>): int
    requires AllIntAdds(operands)
  {
    if operands == [] then 0
    else
      var n := |operands| - 1;
      Total(operands[..n]) + operands[n].elements[1].value
  }

  lemma AdditionWraps(existing: Option<Term>, operand: Term)
    requires IsIntAdd(operand)
    ensures operand.Tuple? && |operand.elements| >= 2 && operand.elements[1].FixInteger?
    ensures Process(existing, operand) == IntResult(IntOf(existing) + operand.elements[1].value)
  {
  }

  /** Additions wrap to the 32-bit representative of the exact total. */
  lemma {:induction false} IntAddsWrapTheTotal(existing: Option<Term>, operands: seq<Term>)
    requires AllIntAdds(operands) && operands != []
    ensures Fold(existing, operands) == IntResult(IntOf(existing) + Total(operands))
  {
    var n := |operands| - 1;
    var front, last := operands[..n], operands[n];
    hide Process;
    if n == 0 {
      AdditionWraps(existing, last);
      assert front == [];
    } else {
      IntAddsWrapTheTotal(existing, front);
      var sum := IntOf(existing) + Total(front);
      AdditionWraps(Some(FixInteger(Wrap32(sum))), last);
      hide IsIntAdd, Wrap;
      WrapAbsorbs(sum, last.elements[1].value, TWO31);
    }
  }

  lemma IntAddsCommute(existing: Option<Term>, xs: seq<Term>, ys: seq<Term>)
    requires AllIntAdds(xs) && multiset(xs) == multiset(ys)
    ensures Fold(existing, xs) == Fold(existing, ys)
  {
    hide Process;
    PermutationKeepsTotal(xs, ys);
    if xs == [] {
      assert |multiset(ys)| == 0;
    } else {
      assert xs[0] in multiset(ys);
      IntAddsWrapTheTotal(existing, xs);
      IntAddsWrapTheTotal(existing, ys);
    }
  }

  lemma {:induction false} PermutationKeepsTotal(xs: seq<Term>, ys: seq<Term>)
    requires AllIntAdds(xs) && multiset(xs) == multiset(ys)
    ensures AllIntAdds(ys) && Total(xs) == Total(ys)
  {
    hide IsIntAdd;
    forall i | 0 <= i < |ys| ensures IsIntAdd(ys[i]) {
      assert ys[i] in multiset(xs);
    }
    if xs == [] {
      assert |multiset(ys)| == 0;
    } else {
      var n := |xs| - 1;
      assert xs[n] in multiset(ys);
      var i :| 0 <= i < |ys| && ys[i] == xs[n];
      var front, back := ys[..i], ys[i + 1..];
      RemoveOne(xs, ys, i);
      PermutationKeepsTotal(xs[..n], front + back);
      TotalAppend(front, back);
      assert ys[..i + 1][..i] == front;
      TotalAppend(ys[..i + 1], back);
      assert ys == ys[..i + 1] + back;
    }
  }

  lemma RemoveOne(xs: seq<Term>, ys: seq<Term>, i: nat)
    requires xs != [] && multiset(xs) == multiset(ys) && i < |ys| && ys[i] == xs[|xs| - 1]
    ensures multiset(xs[..|xs| - 1]) == multiset(ys[..i] + ys[i + 1..])
  {
    var x, front, back := ys[i], ys[..i], ys[i + 1..];
    assert xs == xs[..|xs| - 1] + [x];
    assert ys == front + [x] + back;
    assert multiset(ys) == multiset(front) + multiset{x} + multiset(back);
    assert multiset(front + back) == multiset(ys) - multiset{x};
    assert multiset(xs[..|xs| - 1]) == multiset(xs) - multiset{x};
  }

  lemma {:induction false} TotalAppend(xs: seq<Term>, ys: seq<Term>)
    requires AllIntAdds(xs) && AllIntAdds(ys)
    ensures AllIntAdds(xs + ys) && Total(xs + ys) == Total(xs) + Total(ys)
  {
    if ys == [] {
      assert xs + ys == xs;
    } else {
      var n := |ys| - 1;
      assert (xs + ys)[..|xs + ys| - 1] == xs + ys[..n];
      TotalAppend(xs, ys[..n]);
    }
  }
}
