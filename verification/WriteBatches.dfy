/**
`write_batch`: decoding a list of operations and applying all of them or none,
and the write-ahead log that makes a batch survive a crash.
*/
module WriteBatches {
  import opened Wrappers
  import opened Text
  import opened OptionMaps
  import opened MergeStore

  /** One element of an operation tuple. */
  datatype Argument = AtomArg(name: string) | BinaryArg(bytes: Bytes) | OtherArg

  /** Column family and key. */
  type Location = (string, Bytes)

  type StoreWrite = Write<Location, Bytes, Bytes>

  const DEFAULT_CF := "default"

  datatype BatchReply =
    | Applied(count: nat)
    | RejectedOptions(error: OptionError)
    | BadArg
    | Closed
    | Failed(reason: string)

  function At(cf: string, key: Argument, operation: Operation<Bytes, Bytes>): Option<StoreWrite> {
    if key.BinaryArg? then Some(Write((cf, key.bytes), operation)) else None
  }

  /** A column family argument must be text and name an existing family. */
  function Family(a: Argument, families: set<string>): Option<string> {
    if !a.BinaryArg? then None
    else
      match FromUtf8(a.bytes)
      case Some(name) => if name in families then Some(name) else None
      case None => None
  }

  /** `None` stands for `BadArg`, whichever element causes it. */
  function Parse(terms: seq<Argument>, families: set<string>): Option<StoreWrite> {
    if terms == [] || !terms[0].AtomArg? then None
    else
      match terms[0].name
      case "put" =>
        if |terms| == 3 && terms[2].BinaryArg? then At(DEFAULT_CF, terms[1], Put(terms[2].bytes)) else None
      case "delete" =>
        if |terms| >= 2 then At(DEFAULT_CF, terms[1], Delete) else None
      case "merge" =>
        if |terms| == 3 && terms[2].BinaryArg? then At(DEFAULT_CF, terms[1], Merge(terms[2].bytes)) else None
      case "put_cf" =>
        if |terms| == 4 && terms[3].BinaryArg? && Family(terms[1], families).Some?
        then At(Family(terms[1], families).value, terms[2], Put(terms[3].bytes)) else None
      case "delete_cf" =>
        if |terms| >= 3 && Family(terms[1], families).Some?
        then At(Family(terms[1], families).value, terms[2], Delete) else None
      case "merge_cf" =>
        if |terms| == 4 && terms[3].BinaryArg? && Family(terms[1], families).Some?
        then At(Family(terms[1], families).value, terms[2], Merge(terms[3].bytes)) else None
      case _ => None
  }

  /** A list element that is no tuple decodes to nothing. */
  function ParseElement(element: Option<seq<Argument>>, families: set<string>): Option<StoreWrite> {
    if element.Some? then Parse(element.value, families) else None
  }

  ghost predicate AllParse(operations: seq<Option<seq<Argument>>>, families: set<string>) {
    forall i :: 0 <= i < |operations| ==> ParseElement(operations[i], families).Some?
  }

  function Parsed(operations: seq<Option<seq<Argument>>>, families: set<string>): seq<StoreWrite>
    requires AllParse(operations, families)
  {
    seq(|operations|, i requires 0 <= i < |operations| => ParseElement(operations[i], families).value)
  }

  // ---------- the tuples that callers write ----------

  function NameOf(operation: Operation<Bytes, Bytes>): string {
    match operation
    case Put(_) => "put"
    case Delete => "delete"
    case Merge(_) => "merge"
  }

  function ValueOf(operation: Operation<Bytes, Bytes>): seq<Argument> {
    match operation
    case Put(v) => [BinaryArg(v)]
    case Delete => []
    case Merge(operand) => [BinaryArg(operand)]
  }

  /** `{:put, key, value}`, `{:delete, key}` or `{:merge, key, operand}` */
  function Tuple(key: Bytes, operation: Operation<Bytes, Bytes>): seq<Argument> {
    [AtomArg(NameOf(operation)), BinaryArg(key)] + ValueOf(operation)
  }

  /** The same with `_cf` behind the name and the column family before the key. */
  function CfTuple(w: StoreWrite): seq<Argument> {
    [AtomArg(NameOf(w.operation) + "_cf"), BinaryArg(ToUtf8(w.key.0)), BinaryArg(w.key.1)] + ValueOf(w.operation)
  }

  lemma CfNames()
    ensures NameOf(Delete) + "_cf" == "delete_cf"
    ensures forall v :: NameOf(Put(v)) + "_cf" == "put_cf" && NameOf(Merge(v)) + "_cf" == "merge_cf"
  {
  }

  lemma TuplesParse(w: StoreWrite, families: set<string>)
    ensures Parse(Tuple(w.key.1, w.operation), families) == Some(w.(key := (DEFAULT_CF, w.key.1)))
    ensures Parse(CfTuple(w), families) == if w.key.0 in families then Some(w) else None
  {
    CfNames();
    hide ToUtf8, FromUtf8;
    Utf8RoundTrip(w.key.0);
  }

  /** Nothing else is accepted, but for elements behind those of a deletion. */
  lemma OnlyTuplesParse(terms: seq<Argument>, families: set<string>)
    requires Parse(terms, families).Some?
    ensures var w := Parse(terms, families).value;
            && var plain, cf := Tuple(w.key.1, w.operation), CfTuple(w);
            && (terms == plain || terms == cf || (w.operation.Delete? && (plain <= terms || cf <= terms)))
            && (w.key.0 == DEFAULT_CF || w.key.0 in families)
  {
    CfNames();
    hide ToUtf8, FromUtf8;
    if |terms| > 1 && terms[1].BinaryArg? {
      DecodedIsEncoded(terms[1].bytes);
    }
    var w := Parse(terms, families).value;
    var name := terms[0].name;
    if name == "put" || name == "merge" {
      assert terms == Tuple(w.key.1, w.operation);
    } else if name == "put_cf" || name == "merge_cf" {
      assert terms == CfTuple(w);
    } else if name == "delete" {
      assert Tuple(w.key.1, Delete) == terms[..2];
    } else {
      assert CfTuple(w) == terms[..3];
    }
  }

  // ---------- the log and the handle ----------

  type Cells = map<Location, Cell<Bytes, Bytes>>

  /** What reopening the database makes of a log. */
  function Replay(log: seq<seq<StoreWrite>>): Cells {
    if log == [] then map[] else BatchLazily(Replay(log[..|log| - 1]), log[|log| - 1])
  }

  class Handle {
    var isOpen: bool
    var families: set<string>
    var cells: Cells
    var log: seq<seq<StoreWrite>>
    var synced: nat                 // how much of the log a crash cannot take away

    ghost predicate Valid()
      reads this
    {
      synced <= |log|
    }

    /** Opening, after a crash or for the first time: the surviving log is durable and is replayed. */
    constructor (families: set<string>, surviving: seq<seq<StoreWrite>>)
      ensures Valid() && isOpen && this.families == families
      ensures log == surviving && synced == |surviving| && cells == Replay(surviving)
    {
      isOpen, this.families := true, families;
      log, synced, cells := surviving, |surviving|, Replay(surviving);
    }

    /** `nativeError` is what the store's own batch write reports; a reported error means nothing was written. */
    method WriteBatch(
        operations: Option<seq<Option<seq<Argument>>>>, options: Option<seq<Entry>>, nativeError: Option<string>)
      returns (reply: BatchReply)
      requires Valid()
      modifies this`cells, this`log, this`synced
      ensures Valid()
      ensures reply.RejectedOptions? <==> !WriteOptionsAccepted(options)
      ensures reply.RejectedOptions? ==> RefusesWrite(options, reply.error)
      ensures reply.Closed? ==> !isOpen && operations.Some?
      ensures reply == BadArg ==> operations.None? || (isOpen && !AllParse(operations.value, families))
      ensures reply.Failed? ==>
                isOpen && nativeError == Some(reply.reason) && operations.Some? && AllParse(operations.value, families)
      ensures reply.Applied? ==> isOpen && operations.Some? && AllParse(operations.value, families) && nativeError.None?
      ensures reply.Applied? ==> reply.count == |operations.value|
                                 && cells == BatchLazily(old(cells), Parsed(operations.value, families))
      ensures reply.Applied? ==>
                && log == (if Flag(options.value, "disable_wal") then old(log)
                           else old(log) + [Parsed(operations.value, families)])
                && synced == if Flag(options.value, "sync") then |log| else old(synced)
      ensures !reply.Applied? ==> cells == old(cells) && log == old(log) && synced == old(synced)
    {
      var decoded := DecodeWriteOptions(options);
      if decoded.Err? {
        return RejectedOptions(decoded.error);
      }
      if operations.None? {
        return BadArg;
      }
      if !isOpen {
        return Closed;
      }
      var elements := operations.value;
      var batch: seq<StoreWrite> := [];
      for i := 0 to |elements|
        invariant AllParse(elements[..i], families)
        invariant batch == Parsed(elements[..i], families)
      {
        var write := ParseElement(elements[i], families);
        if write.None? {
          return BadArg;
        }
        assert elements[..i + 1] == elements[..i] + [elements[i]];
        batch := batch + [write.value];
      }
      assert elements[..|elements|] == elements;
      if nativeError.Some? {
        return Failed(nativeError.value);
      }
      cells := BatchLazily(cells, batch);
      if !decoded.value.disableWal {
        log := log + [batch];
        if decoded.value.sync {
          synced := |log|;
        }
      }
      return Applied(|batch|);
    }
  }
}
