/** The string-valued database options: validation, and the conversion that trusts it. */
module DbOptions {
  import opened Wrappers
  import opened Text
  import opened Machine

  /** `str::to_lowercase`, which is left to the caller. */
  type Lowercase = string -> string

  datatype Options = Options(
    compressionType: Option<string>,
    bottommostCompressionType: Option<string>,
    blobCompressionType: Option<string>,
    logLevel: Option<string>,
    compactionStyle: Option<string>,
    walRecoveryMode: Option<string>,
    mergeOperator: Option<string>,
    multiplierAdditional: Option<string>,
    ratelimiter: Option<string>)

  datatype Compression = NoCompression | Snappy | Zlib | Bz2 | Lz4 | Lz4hc | Zstd
  datatype LogLevel = Debug | Info | Warn | Error | Fatal | Header
  datatype CompactionStyle = Level | Universal | Fifo
  datatype RecoveryMode = TolerateCorruptedTailRecords | AbsoluteConsistency | PointInTime | SkipAnyCorruptedRecord
  datatype MergeOperator = CounterMerge | ErlangMerge | BitsetMerge

  datatype Converted = Converted(
    compressionType: Option<Compression>,
    bottommostCompressionType: Option<Compression>,
    blobCompressionType: Option<Compression>,
    logLevel: Option<LogLevel>,
    compactionStyle: Option<CompactionStyle>,
    walRecoveryMode: Option<RecoveryMode>,
    mergeOperator: Option<MergeOperator>,
    multiplierAdditional: Option<seq<int>>,
    ratelimiter: Option<(int, int, i32)>)

  // ---------- comma-separated lists ----------

  function Split(s: string): (parts: seq<string>)
    ensures parts != []
  {
    if s == "" then [""]
    else
      var rest := Split(s[1..]);
      if s[0] == ',' then [""] + rest else [[s[0]] + rest[0]] + rest[1..]
  }

  function Join(parts: seq<string>): string
    requires parts != []
  {
    if |parts| == 1 then parts[0] else parts[0] + "," + Join(parts[1..])
  }

  /** Splitting loses nothing, and no part keeps a separator. */
  lemma {:induction false} JoinSplit(s: string)
    ensures Join(Split(s)) == s
    ensures forall part :: part in Split(s) ==> ',' !in part
  {
    if s != "" {
      JoinSplit(s[1..]);
      var rest := Split(s[1..]);
      if s[0] == ',' {
        assert Split(s)[1..] == rest;
      } else {
        assert Split(s)[1..] == rest[1..];
      }
    }
  }

  /** The lenient second parse: what does not parse is dropped. */
  function LenientInts(parts: seq<string>, min: int, max: int): seq<int> {
    if parts == [] then []
    else
      var parsed := ParseSigned(Trim(parts[0]), min, max);
      (if parsed.Some? then [parsed.value] else []) + LenientInts(parts[1..], min, max)
  }

  ghost predicate AllInts(parts: seq<string>, min: int, max: int) {
    forall i :: 0 <= i < |parts| ==> ParseSigned(Trim(parts[i]), min, max).Some?
  }

  /** The lenient parse keeps every element in its place precisely when every part parses. */
  lemma {:induction false} LenientIsLosslessIff(parts: seq<string>, min: int, max: int)
    ensures |LenientInts(parts, min, max)| <= |parts|
    ensures |LenientInts(parts, min, max)| == |parts| <==> AllInts(parts, min, max)
    ensures AllInts(parts, min, max) ==>
              forall i :: 0 <= i < |parts| ==>
                ParseSigned(Trim(parts[i]), min, max) == Some(LenientInts(parts, min, max)[i])
  {
    hide ParseSigned, Trim;
    if parts != [] {
      var rest := parts[1..];
      LenientIsLosslessIff(rest, min, max);
      if ParseSigned(Trim(parts[0]), min, max).Some? && AllInts(rest, min, max) {
        forall i | 0 <= i < |parts|
          ensures ParseSigned(Trim(parts[i]), min, max) == Some(LenientInts(parts, min, max)[i])
        {
          assert i > 0 ==> parts[i] == rest[i - 1];
        }
      }
    }
  }

  // ---------- validation ----------

  const COMPRESSIONS := ["none", "snappy", "zlib", "bz2", "lz4", "lz4hc", "zstd"]
  const LOG_LEVELS := ["debug", "info", "warn", "error", "fatal", "header"]
  const COMPACTION_STYLES := ["level", "universal", "fifo"]
  const RECOVERY_MODES :=
    ["toleratecorruptedtailrecords", "absoluteconsistency", "pointintime", "skipanycorruptedrecord"]
  const MERGE_OPERATORS := ["counter_merge_operator", "erlang_merge_operator", "bitset_merge_operator"]

  predicate ValidChoice(value: Option<string>, accepted: seq<string>, lower: Lowercase) {
    value.Some? ==> lower(Trim(value.value)) in accepted
  }

  predicate ValidMultipliers(value: string) {
    value != "" && forall i :: 0 <= i < |Split(value)| ==> ParseSigned(Trim(Split(value)[i]), I32_MIN, I32_MAX).Some?
  }

  predicate ValidRatelimiter(value: string) {
    var parts := Split(value);
    && (forall i :: 0 <= i < |parts| ==> ParseSigned(Trim(parts[i]), I64_MIN, I64_MAX).Some?)
    && |parts| == 3
    && I32_MIN <= ParseSigned(Trim(parts[2]), I64_MIN, I64_MAX).value <= I32_MAX
  }

  /** The name of the first offending option. */
  function Validate(o: Options, lower: Lowercase): Result<(), string> {
    if !ValidChoice(o.compressionType, COMPRESSIONS, lower) then Err("set_compression_type")
    else if !ValidChoice(o.bottommostCompressionType, COMPRESSIONS, lower) then Err("set_bottommost_compression_type")
    else if !ValidChoice(o.blobCompressionType, COMPRESSIONS, lower) then Err("set_blob_compression_type")
    else if !ValidChoice(o.logLevel, LOG_LEVELS, lower) then Err("set_log_level")
    else if !ValidChoice(o.compactionStyle, COMPACTION_STYLES, lower) then Err("set_compaction_style")
    else if !ValidChoice(o.walRecoveryMode, RECOVERY_MODES, lower) then Err("set_wal_recovery_mode")
    else if !ValidChoice(o.mergeOperator, MERGE_OPERATORS, lower) then Err("merge_operator")
    else if o.multiplierAdditional.Some? && !ValidMultipliers(o.multiplierAdditional.value) then
      Err("set_max_bytes_for_level_multiplier_additional")
    else if o.ratelimiter.Some? && !ValidRatelimiter(o.ratelimiter.value) then Err("set_ratelimiter")
    else Ok(())
  }

  // ---------- conversion ----------

  function ToCompression(name: string): Compression {
    match name
    case "none" => NoCompression
    case "snappy" => Snappy
    case "zlib" => Zlib
    case "bz2" => Bz2
    case "lz4" => Lz4
    case "lz4hc" => Lz4hc
    case "zstd" => Zstd
    case _ => NoCompression
  }

  function ToLogLevel(name: string): LogLevel {
    match name
    case "debug" => Debug
    case "info" => Info
    case "warn" => Warn
    case "error" => Error
    case "fatal" => Fatal
    case "header" => Header
    case _ => Error
  }

  function ToCompactionStyle(name: string): CompactionStyle {
    match name
    case "level" => Level
    case "universal" => Universal
    case "fifo" => Fifo
    case _ => Level
  }

  function ToRecoveryMode(name: string): RecoveryMode {
    match name
    case "toleratecorruptedtailrecords" => TolerateCorruptedTailRecords
    case "absoluteconsistency" => AbsoluteConsistency
    case "pointintime" => PointInTime
    case "skipanycorruptedrecord" => SkipAnyCorruptedRecord
    case _ => PointInTime
  }

  function ToMergeOperator(name: string): Option<MergeOperator> {
    match name
    case "counter_merge_operator" => Some(CounterMerge)
    case "erlang_merge_operator" => Some(ErlangMerge)
    case "bitset_merge_operator" => Some(BitsetMerge)
    case _ => None
  }

  function Chosen<T>(value: Option<string>, lower: Lowercase, convert: string -> T): Option<T> {
    if value.Some? then Some(convert(lower(Trim(value.value)))) else None
  }

  function ToRatelimiter(value: string): Option<(int, int, i32)> {
    var values := LenientInts(Split(value), I64_MIN, I64_MAX);
    if |values| == 3 then Some((values[0], values[1], Wrap32(values[2]))) else None
  }

  /** Every present option, converted. */
  function Conversion(o: Options, lower: Lowercase): Converted {
    Converted(
      Chosen(o.compressionType, lower, ToCompression),
      Chosen(o.bottommostCompressionType, lower, ToCompression),
      Chosen(o.blobCompressionType, lower, ToCompression),
      Chosen(o.logLevel, lower, ToLogLevel),
      Chosen(o.compactionStyle, lower, ToCompactionStyle),
      Chosen(o.walRecoveryMode, lower, ToRecoveryMode),
      if o.mergeOperator.Some? then ToMergeOperator(lower(Trim(o.mergeOperator.value))) else None,
      if o.multiplierAdditional.Some?
      then Some(LenientInts(Split(o.multiplierAdditional.value), I32_MIN, I32_MAX)) else None,
      if o.ratelimiter.Some? then ToRatelimiter(o.ratelimiter.value) else None)
  }

  // ---------- what validation accepts ----------

  /** A present choice names an alternative, in any case and with any whitespace around it. */
  ghost predicate NamesOne<T(!new)>(value: Option<string>, lower: Lowercase, nameOf: T -> string) {
    value.Some? ==> exists t: T :: nameOf(t) == lower(Trim(value.value))
  }

  ghost predicate SpellsWithin(text: string, min: int, max: int) {
    exists n :: min <= n <= max && Spells(text, n)
  }

  ghost predicate SpellsAll(parts: seq<string>, min: int, max: int) {
    forall i :: 0 <= i < |parts| ==> SpellsWithin(Trim(parts[i]), min, max)
  }

  /** The options in the order of their validation, each with what it takes to pass. */
  ghost function Checks(o: Options, lower: Lowercase): seq<(string, bool)> {
    [
      ("set_compression_type", NamesOne(o.compressionType, lower, CompressionName)),
      ("set_bottommost_compression_type", NamesOne(o.bottommostCompressionType, lower, CompressionName)),
      ("set_blob_compression_type", NamesOne(o.blobCompressionType, lower, CompressionName)),
      ("set_log_level", NamesOne(o.logLevel, lower, LogLevelName)),
      ("set_compaction_style", NamesOne(o.compactionStyle, lower, CompactionStyleName)),
      ("set_wal_recovery_mode", NamesOne(o.walRecoveryMode, lower, RecoveryModeName)),
      ("merge_operator", NamesOne(o.mergeOperator, lower, MergeOperatorName)),
      ("set_max_bytes_for_level_multiplier_additional",
       o.multiplierAdditional.Some? ==>
         o.multiplierAdditional.value != "" && SpellsAll(Split(o.multiplierAdditional.value), I32_MIN, I32_MAX)),
      ("set_ratelimiter",
       o.ratelimiter.Some? ==>
         var parts := Split(o.ratelimiter.value);
         |parts| == 3 && SpellsAll(parts, I64_MIN, I64_MAX) && SpellsWithin(Trim(parts[2]), I32_MIN, I32_MAX))
    ]
  }

  /** Options pass exactly when all of them do, and otherwise the first that does not is named. */
  lemma ValidateIff(o: Options, lower: Lowercase)
    ensures var checks := Checks(o, lower);
            match Validate(o, lower)
            case Ok(_) => forall i :: 0 <= i < |checks| ==> checks[i].1
            case Err(name) =>
              exists i :: 0 <= i < |checks| && checks[i].0 == name && !checks[i].1
                          && forall j :: 0 <= j < i ==> checks[j].1
  {
    hide Trim, Split, Spells, ParseSigned, SpellsWithin, SpellsAll, NamesOne,
      ValidChoice, ValidMultipliers, ValidRatelimiter,
      CompressionName, LogLevelName, CompactionStyleName, RecoveryModeName, MergeOperatorName;
    var checks := Checks(o, lower);
    CompressionChoiceIff(o.compressionType, lower);
    CompressionChoiceIff(o.bottommostCompressionType, lower);
    CompressionChoiceIff(o.blobCompressionType, lower);
    LogLevelChoiceIff(o.logLevel, lower);
    CompactionStyleChoiceIff(o.compactionStyle, lower);
    RecoveryModeChoiceIff(o.walRecoveryMode, lower);
    MergeOperatorChoiceIff(o.mergeOperator, lower);
    if o.multiplierAdditional.Some? {
      MultipliersIff(o.multiplierAdditional.value);
    }
    if o.ratelimiter.Some? {
      RatelimiterIff(o.ratelimiter.value);
    }
    FirstFailure(checks, Validate(o, lower));
  }

  lemma FirstFailure(checks: seq<(string, bool)>, r: Result<(), string>)
    requires |checks| == 9
    requires r == if !checks[0].1 then Err(checks[0].0)
                  else if !checks[1].1 then Err(checks[1].0)
                  else if !checks[2].1 then Err(checks[2].0)
                  else if !checks[3].1 then Err(checks[3].0)
                  else if !checks[4].1 then Err(checks[4].0)
                  else if !checks[5].1 then Err(checks[5].0)
                  else if !checks[6].1 then Err(checks[6].0)
                  else if !checks[7].1 then Err(checks[7].0)
                  else if !checks[8].1 then Err(checks[8].0)
                  else Ok(())
    ensures match r
            case Ok(_) => forall i :: 0 <= i < |checks| ==> checks[i].1
            case Err(name) =>
              exists i :: 0 <= i < |checks| && checks[i].0 == name && !checks[i].1
                          && forall j :: 0 <= j < i ==> checks[j].1
  {
  }

  lemma CompressionChoiceIff(value: Option<string>, lower: Lowercase)
    ensures ValidChoice(value, COMPRESSIONS, lower) <==> NamesOne(value, lower, CompressionName)
  {
    hide Trim;
    if value.Some? {
      var name := lower(Trim(value.value));
      AcceptedNamesConvert(name);
      if c: Compression :| CompressionName(c) == name {
        assert name in COMPRESSIONS;
      }
    }
  }

  lemma LogLevelChoiceIff(value: Option<string>, lower: Lowercase)
    ensures ValidChoice(value, LOG_LEVELS, lower) <==> NamesOne(value, lower, LogLevelName)
  {
    hide Trim;
    if value.Some? {
      var name := lower(Trim(value.value));
      AcceptedNamesConvert(name);
      if l: LogLevel :| LogLevelName(l) == name {
        assert name in LOG_LEVELS;
      }
    }
  }

  lemma CompactionStyleChoiceIff(value: Option<string>, lower: Lowercase)
    ensures ValidChoice(value, COMPACTION_STYLES, lower) <==> NamesOne(value, lower, CompactionStyleName)
  {
    hide Trim;
    if value.Some? {
      var name := lower(Trim(value.value));
      AcceptedNamesConvert(name);
      if s: CompactionStyle :| CompactionStyleName(s) == name {
        assert name in COMPACTION_STYLES;
      }
    }
  }

  lemma RecoveryModeChoiceIff(value: Option<string>, lower: Lowercase)
    ensures ValidChoice(value, RECOVERY_MODES, lower) <==> NamesOne(value, lower, RecoveryModeName)
  {
    hide Trim;
    if value.Some? {
      var name := lower(Trim(value.value));
      AcceptedNamesConvert(name);
      if m: RecoveryMode :| RecoveryModeName(m) == name {
        assert name in RECOVERY_MODES;
      }
    }
  }

  lemma MergeOperatorChoiceIff(value: Option<string>, lower: Lowercase)
    ensures ValidChoice(value, MERGE_OPERATORS, lower) <==> NamesOne(value, lower, MergeOperatorName)
  {
    hide Trim;
    if value.Some? {
      var name := lower(Trim(value.value));
      AcceptedNamesConvert(name);
      if m: MergeOperator :| MergeOperatorName(m) == name {
        assert name in MERGE_OPERATORS;
      }
    }
  }

  lemma ParsesIffWithin(text: string, min: int, max: int)
    ensures ParseSigned(text, min, max).Some? <==> SpellsWithin(text, min, max)
  {
    hide ParseSigned, Spells;
    if ParseSigned(text, min, max).Some? {
      ParsesIffSpelled(text, ParseSigned(text, min, max).value, min, max);
    }
    if n :| min <= n <= max && Spells(text, n) {
      ParsesIffSpelled(text, n, min, max);
    }
  }

  lemma MultipliersIff(value: string)
    ensures ValidMultipliers(value) <==> value != "" && SpellsAll(Split(value), I32_MIN, I32_MAX)
  {
    hide Trim, Split, ParseSigned, SpellsWithin;
    forall part: string {
      ParsesIffWithin(Trim(part), I32_MIN, I32_MAX);
    }
  }

  lemma RatelimiterIff(value: string)
    ensures var parts := Split(value);
            ValidRatelimiter(value) <==>
              |parts| == 3 && SpellsAll(parts, I64_MIN, I64_MAX) && SpellsWithin(Trim(parts[2]), I32_MIN, I32_MAX)
  {
    hide Trim, Split, ParseSigned, Spells;
    var parts := Split(value);
    forall part: string {
      ParsesIffWithin(Trim(part), I64_MIN, I64_MAX);
    }
    if |parts| == 3 {
      var third := Trim(parts[2]);
      ParsesIffWithin(third, I32_MIN, I32_MAX);
      if ParseSigned(third, I32_MIN, I32_MAX).Some? {
        var n := ParseSigned(third, I32_MIN, I32_MAX).value;
        ParsesIffSpelled(third, n, I32_MIN, I32_MAX);
        ParsesIffSpelled(third, n, I64_MIN, I64_MAX);
      }
      if ParseSigned(third, I64_MIN, I64_MAX).Some? {
        var n := ParseSigned(third, I64_MIN, I64_MAX).value;
        ParsesIffSpelled(third, n, I64_MIN, I64_MAX);
        ParsesIffSpelled(third, n, I32_MIN, I32_MAX);
      }
    }
  }

  // ---------- what an accepted value converts to ----------

  function CompressionName(c: Compression): string {
    match c
    case NoCompression => "none"
    case Snappy => "snappy"
    case Zlib => "zlib"
    case Bz2 => "bz2"
    case Lz4 => "lz4"
    case Lz4hc => "lz4hc"
    case Zstd => "zstd"
  }

  function LogLevelName(l: LogLevel): string {
    match l
    case Debug => "debug"
    case Info => "info"
    case Warn => "warn"
    case Error => "error"
    case Fatal => "fatal"
    case Header => "header"
  }

  function CompactionStyleName(s: CompactionStyle): string {
    match s
    case Level => "level"
    case Universal => "universal"
    case Fifo => "fifo"
  }

  function RecoveryModeName(m: RecoveryMode): string {
    match m
    case TolerateCorruptedTailRecords => "toleratecorruptedtailrecords"
    case AbsoluteConsistency => "absoluteconsistency"
    case PointInTime => "pointintime"
    case SkipAnyCorruptedRecord => "skipanycorruptedrecord"
  }

  function MergeOperatorName(m: MergeOperator): string {
    match m
    case CounterMerge => "counter_merge_operator"
    case ErlangMerge => "erlang_merge_operator"
    case BitsetMerge => "bitset_merge_operator"
  }

  /** Absent stays absent, and a present choice converts to the alternative it names. */
  ghost predicate Names<T(!new)>(converted: Option<T>, value: Option<string>, lower: Lowercase, nameOf: T -> string) {
    match value
    case None => converted == None
    case Some(v) => converted.Some? && nameOf(converted.value) == lower(Trim(v))
  }

  ghost predicate SameInts(values: seq<int>, parts: seq<string>, min: int, max: int) {
    |values| == |parts| && forall i :: 0 <= i < |parts| ==> ParseSigned(Trim(parts[i]), min, max) == Some(values[i])
  }

  ghost predicate Lossless(o: Options, lower: Lowercase, c: Converted) {
    && Names(c.compressionType, o.compressionType, lower, CompressionName)
    && Names(c.bottommostCompressionType, o.bottommostCompressionType, lower, CompressionName)
    && Names(c.blobCompressionType, o.blobCompressionType, lower, CompressionName)
    && Names(c.logLevel, o.logLevel, lower, LogLevelName)
    && Names(c.compactionStyle, o.compactionStyle, lower, CompactionStyleName)
    && Names(c.walRecoveryMode, o.walRecoveryMode, lower, RecoveryModeName)
    && Names(c.mergeOperator, o.mergeOperator, lower, MergeOperatorName)
    && (o.multiplierAdditional.Some? ==>
          c.multiplierAdditional.Some?
          && SameInts(c.multiplierAdditional.value, Split(o.multiplierAdditional.value), I32_MIN, I32_MAX))
    && (o.ratelimiter.Some? ==>
          c.ratelimiter.Some?
          && var (bytes, refill, fairness) := c.ratelimiter.value;
          SameInts([bytes, refill, fairness], Split(o.ratelimiter.value), I64_MIN, I64_MAX))
  }

  lemma AcceptedNamesConvert(name: string)
    ensures name in COMPRESSIONS ==> CompressionName(ToCompression(name)) == name
    ensures name in LOG_LEVELS ==> LogLevelName(ToLogLevel(name)) == name
    ensures name in COMPACTION_STYLES ==> CompactionStyleName(ToCompactionStyle(name)) == name
    ensures name in RECOVERY_MODES ==> RecoveryModeName(ToRecoveryMode(name)) == name
    ensures name in MERGE_OPERATORS ==>
              ToMergeOperator(name).Some? && MergeOperatorName(ToMergeOperator(name).value) == name
  {
  }

  /** For accepted options no fallback alternative is used, no list element is lost and no cast truncates. */
  lemma ValidConversionIsLossless(o: Options, lower: Lowercase)
    requires Validate(o, lower).Ok?
    ensures Lossless(o, lower, Conversion(o, lower))
  {
    hide ParseSigned, Trim, Split, LenientInts, Wrap32,
      ToCompression, ToLogLevel, ToCompactionStyle, ToRecoveryMode, ToMergeOperator,
      CompressionName, LogLevelName, CompactionStyleName, RecoveryModeName, MergeOperatorName;
    forall name: string {
      AcceptedNamesConvert(name);
    }
    if o.multiplierAdditional.Some? {
      LenientIsLosslessIff(Split(o.multiplierAdditional.value), I32_MIN, I32_MAX);
    }
    if o.ratelimiter.Some? {
      LenientIsLosslessIff(Split(o.ratelimiter.value), I64_MIN, I64_MAX);
    }
  }

  /** `From<RockerOptions>`: one setter after the other, each only for a present option. */
  method Convert(o: Options, lower: Lowercase) returns (c: Converted)
    ensures Validate(o, lower).Ok? ==> Lossless(o, lower, c)
    ensures c == Conversion(o, lower)
  {
    hide Validate, Lossless, Trim, Split, LenientInts, ToRatelimiter,
      ToCompression, ToLogLevel, ToCompactionStyle, ToRecoveryMode, ToMergeOperator;
    c := Converted(None, None, None, None, None, None, None, None, None);
    if o.compressionType.Some? {
      c := c.(compressionType := Some(ToCompression(lower(Trim(o.compressionType.value)))));
    }
    if o.bottommostCompressionType.Some? {
      c := c.(bottommostCompressionType := Some(ToCompression(lower(Trim(o.bottommostCompressionType.value)))));
    }
    if o.logLevel.Some? {
      c := c.(logLevel := Some(ToLogLevel(lower(Trim(o.logLevel.value)))));
    }
    if o.compactionStyle.Some? {
      c := c.(compactionStyle := Some(ToCompactionStyle(lower(Trim(o.compactionStyle.value)))));
    }
    if o.multiplierAdditional.Some? {
      c := c.(multiplierAdditional := Some(LenientInts(Split(o.multiplierAdditional.value), I32_MIN, I32_MAX)));
    }
    if o.walRecoveryMode.Some? {
      c := c.(walRecoveryMode := Some(ToRecoveryMode(lower(Trim(o.walRecoveryMode.value)))));
    }
    if o.ratelimiter.Some? {
      c := c.(ratelimiter := ToRatelimiter(o.ratelimiter.value));
    }
    if o.blobCompressionType.Some? {
      c := c.(blobCompressionType := Some(ToCompression(lower(Trim(o.blobCompressionType.value)))));
    }
    if o.mergeOperator.Some? {
      c := c.(mergeOperator := ToMergeOperator(lower(Trim(o.mergeOperator.value))));
    }
    assert c == Conversion(o, lower);
    hide Conversion;
    if Validate(o, lower).Ok? {
      ValidConversionIsLossless(o, lower);
    }
  }
}
