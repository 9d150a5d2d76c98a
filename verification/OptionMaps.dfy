/** Erlang option maps and the two decoders that read them entry by entry. */
module OptionMaps {
  import opened Wrappers
  import opened Machine

  /** `key` is absent when the map key is no atom. */
  datatype Entry = Entry(key: Option<string>, value: EntryValue)

  datatype EntryValue = Integer(number: int) | Boolean(flag: bool) | OtherValue

  datatype OptionError = Invalid | Unknown(key: string)

  /** The value of the last entry with the given key. */
  function Lookup(entries: seq<Entry>, key: string): Option<EntryValue> {
    if entries == [] then None
    else
      var last := entries[|entries| - 1];
      if last.key == Some(key) then Some(last.value) else Lookup(entries[..|entries| - 1], key)
  }

  /** `i` is the entry on which decoding stops. */
  ghost predicate FirstRejected(entries: seq<Entry>, accepts: Entry -> bool, i: int) {
    0 <= i < |entries| && !accepts(entries[i]) && forall j :: 0 <= j < i ==> accepts(entries[j])
  }

  lemma {:induction false} LookupIsAccepted(entries: seq<Entry>, accepts: Entry -> bool, key: string)
    requires forall i :: 0 <= i < |entries| ==> accepts(entries[i])
    ensures Lookup(entries, key).Some? ==> accepts(Entry(Some(key), Lookup(entries, key).value))
  {
    if entries != [] {
      LookupIsAccepted(entries[..|entries| - 1], accepts, key);
    }
  }

  lemma LookupOne(e: Entry, key: string)
    ensures Lookup([e], key) == if e.key == Some(key) then Some(e.value) else None
  {
    var entries := [e];
    assert entries[..|entries| - 1] == [];
  }

  // ---------- write options ----------

  datatype WriteOptions = WriteOptions(sync: bool, disableWal: bool)

  predicate AcceptsWrite(e: Entry) {
    e.key in {Some("sync"), Some("disable_wal")} && e.value.Boolean?
  }

  function Flag(entries: seq<Entry>, key: string): bool {
    Lookup(entries, key).Some? && Lookup(entries, key).value.Boolean? && Lookup(entries, key).value.flag
  }

  /** A map of known flags that does not ask for a synced write without a log. */
  ghost predicate WriteOptionsAccepted(term: Option<seq<Entry>>) {
    && term.Some?
    && (forall i :: 0 <= i < |term.value| ==> AcceptsWrite(term.value[i]))
    && !(Flag(term.value, "sync") && Flag(term.value, "disable_wal"))
  }

  /**
  The error names the key of the first rejected entry if that key is unknown; it
  is `Invalid` for a known key with a wrong value, a key that is no atom, no map
  at all, or a map of accepted entries that contradict each other.
  */
  ghost predicate RefusesWrite(term: Option<seq<Entry>>, error: OptionError) {
    match error
    case Unknown(key) =>
      && key !in {"sync", "disable_wal"} && term.Some?
      && exists i :: FirstRejected(term.value, AcceptsWrite, i) && term.value[i].key == Some(key)
    case Invalid =>
      || term.None?
      || ((forall i :: 0 <= i < |term.value| ==> AcceptsWrite(term.value[i]))
          && Flag(term.value, "sync") && Flag(term.value, "disable_wal"))
      || exists i :: FirstRejected(term.value, AcceptsWrite, i)
                     && (term.value[i].key == None || term.value[i].key.value in {"sync", "disable_wal"})
  }

  method DecodeWriteOptions(term: Option<seq<Entry>>) returns (r: Result<WriteOptions, OptionError>)
    ensures r.Ok? <==> WriteOptionsAccepted(term)
    ensures r.Ok? ==> r.value == WriteOptions(Flag(term.value, "sync"), Flag(term.value, "disable_wal"))
    ensures r.Err? ==> RefusesWrite(term, r.error)
  {
    if term.None? {
      return Err(Invalid);
    }
    var entries := term.value;
    var options := WriteOptions(false, false);
    for i := 0 to |entries|
      invariant forall j :: 0 <= j < i ==> AcceptsWrite(entries[j])
      invariant options == WriteOptions(Flag(entries[..i], "sync"), Flag(entries[..i], "disable_wal"))
    {
      assert entries[..i + 1][..i] == entries[..i];
      assert FirstRejected(entries, AcceptsWrite, i) || AcceptsWrite(entries[i]);
      var Entry(key, value) := entries[i];
      if key.None? {
        return Err(Invalid);
      }
      match key.value
      case "sync" =>
        if !value.Boolean? {
          return Err(Invalid);
        }
        options := options.(sync := value.flag);
      case "disable_wal" =>
        if !value.Boolean? {
          return Err(Invalid);
        }
        options := options.(disableWal := value.flag);
      case _ =>
        return Err(Unknown(key.value));
    }
    assert entries[..|entries|] == entries;
    if options.sync && options.disableWal {
      return Err(Invalid);
    }
    return Ok(options);
  }

  /** The maps that callers write: two flags that must not both be set, and nothing else. */
  lemma WriteMaps(sync: bool, disableWal: bool, other: Entry)
    ensures var both := [Entry(Some("sync"), Boolean(sync)), Entry(Some("disable_wal"), Boolean(disableWal))];
            && (WriteOptionsAccepted(Some(both)) <==> !(sync && disableWal))
            && Flag(both, "sync") == sync && Flag(both, "disable_wal") == disableWal
    ensures WriteOptionsAccepted(Some([])) && !Flag([], "sync") && !Flag([], "disable_wal")
    ensures WriteOptionsAccepted(Some([other])) <==>
              exists b :: other.value == Boolean(b) && (other.key == Some("sync") || other.key == Some("disable_wal"))
  {
    var first: seq<Entry> := [Entry(Some("sync"), Boolean(sync))];
    var both := first + [Entry(Some("disable_wal"), Boolean(disableWal))];
    assert both == [Entry(Some("sync"), Boolean(sync)), Entry(Some("disable_wal"), Boolean(disableWal))];
    assert both[..1] == first;
    LookupOne(first[0], "sync");
    LookupOne(first[0], "disable_wal");
    LookupOne(other, "sync");
    LookupOne(other, "disable_wal");
    if WriteOptionsAccepted(Some([other])) {
      assert AcceptsWrite([other][0]) && other.value == Boolean(other.value.flag);
    }
  }

  // ---------- iterator_take options ----------

  const MAX_ENTRIES: nat := 100_000
  const MAX_BYTES: nat := 64 * 1024 * 1024

  datatype TakeOptions = TakeOptions(maxEntries: nat, maxBytes: Option<nat>)

  /** The options that the decoder lets through. */
  ghost predicate WithinBounds(o: TakeOptions) {
    && 1 <= o.maxEntries <= MAX_ENTRIES
    && (o.maxBytes.Some? ==> 1 <= o.maxBytes.value <= MAX_BYTES)
  }

  predicate AcceptsTake(e: Entry) {
    && e.value.Integer?
    && ((e.key == Some("max_entries") && 1 <= e.value.number <= MAX_ENTRIES)
        || (e.key == Some("max_bytes") && 1 <= e.value.number <= MAX_BYTES))
  }

  /** A map of known bounds in range that has `max_entries`. */
  ghost predicate TakeOptionsAccepted(term: Option<seq<Entry>>) {
    && term.Some?
    && (forall i :: 0 <= i < |term.value| ==> AcceptsTake(term.value[i]))
    && Lookup(term.value, "max_entries").Some?
  }

  function Number(v: Option<EntryValue>): Option<nat> {
    if v.Some? && v.value.Integer? && v.value.number >= 0 then Some(v.value.number) else None
  }

  /** As for writing; a map of accepted entries is refused for want of `max_entries`. */
  ghost predicate RefusesTake(term: Option<seq<Entry>>, error: OptionError) {
    match error
    case Unknown(key) =>
      && key !in {"max_entries", "max_bytes"} && term.Some?
      && exists i :: FirstRejected(term.value, AcceptsTake, i) && term.value[i].key == Some(key)
    case Invalid =>
      || term.None?
      || ((forall i :: 0 <= i < |term.value| ==> AcceptsTake(term.value[i])) && Lookup(term.value, "max_entries").None?)
      || exists i :: FirstRejected(term.value, AcceptsTake, i)
                     && (term.value[i].key == None || term.value[i].key.value in {"max_entries", "max_bytes"})
  }

  method DecodeTakeOptions(term: Option<seq<Entry>>) returns (r: Result<TakeOptions, OptionError>)
    ensures r.Ok? <==> TakeOptionsAccepted(term)
    ensures r.Ok? ==> && WithinBounds(r.value)
                      && Lookup(term.value, "max_entries") == Some(Integer(r.value.maxEntries))
                      && Number(Lookup(term.value, "max_bytes")) == r.value.maxBytes
    ensures r.Err? ==> RefusesTake(term, r.error)
  {
    if term.None? {
      return Err(Invalid);
    }
    var entries := term.value;
    var maxEntries: Option<nat> := None;
    var maxBytes: Option<nat> := None;
    for i := 0 to |entries|
      invariant forall j :: 0 <= j < i ==> AcceptsTake(entries[j])
      invariant maxEntries == Number(Lookup(entries[..i], "max_entries"))
      invariant maxBytes == Number(Lookup(entries[..i], "max_bytes"))
    {
      assert entries[..i + 1][..i] == entries[..i];
      assert FirstRejected(entries, AcceptsTake, i) || AcceptsTake(entries[i]);
      var Entry(key, value) := entries[i];
      if key.None? {
        return Err(Invalid);
      }
      match key.value
      case "max_entries" =>
        if !value.Integer? || value.number < 0 || value.number > USIZE_MAX {
          return Err(Invalid);
        }
        if value.number == 0 || value.number > MAX_ENTRIES {
          return Err(Invalid);
        }
        maxEntries := Some(value.number);
      case "max_bytes" =>
        if !value.Integer? || value.number < 0 || value.number > USIZE_MAX {
          return Err(Invalid);
        }
        if value.number == 0 || value.number > MAX_BYTES {
          return Err(Invalid);
        }
        maxBytes := Some(value.number);
      case _ =>
        return Err(Unknown(key.value));
    }
    assert entries[..|entries|] == entries;
    LookupIsAccepted(entries, AcceptsTake, "max_entries");
    LookupIsAccepted(entries, AcceptsTake, "max_bytes");
    if maxEntries.None? {
      return Err(Invalid);
    }
    return Ok(TakeOptions(maxEntries.value, maxBytes));
  }

  /** The maps that callers write: 1 to 100 000 entries, and 1 byte to 64 MiB if the bytes are bounded. */
  lemma TakeMaps(entries: int, bytes: int)
    ensures var bounded := [Entry(Some("max_entries"), Integer(entries)), Entry(Some("max_bytes"), Integer(bytes))];
            && (TakeOptionsAccepted(Some(bounded)) <==> 1 <= entries <= 100_000 && 1 <= bytes <= 67_108_864)
            && Lookup(bounded, "max_entries") == Some(Integer(entries))
            && Lookup(bounded, "max_bytes") == Some(Integer(bytes))
    ensures TakeOptionsAccepted(Some([Entry(Some("max_entries"), Integer(entries))])) <==> 1 <= entries <= 100_000
    ensures !TakeOptionsAccepted(Some([])) && !TakeOptionsAccepted(Some([Entry(Some("max_bytes"), Integer(bytes))]))
  {
    var first, second := Entry(Some("max_entries"), Integer(entries)), Entry(Some("max_bytes"), Integer(bytes));
    var bounded := [first, second];
    assert bounded[..1] == [first] && bounded[0] == first && bounded[1] == second;
    LookupOne(first, "max_entries");
    LookupOne(first, "max_bytes");
    LookupOne(second, "max_entries");
    assert [first][0] == first;
  }
}
