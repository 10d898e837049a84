/**
 * The per-connection state of the variable layer: the overlay of values a
 * session has set or fetched, the statement's warnings and the snapshot
 * timestamp, together with the session read path, the session write path and
 * the snapshot setter.
 */
module Session {
  import opened Wrappers
  import opened Text
  import opened Numbers
  import opened Catalog
  import opened Validator
  import opened Scope
  import opened Options

  /**
   * `GetSessionOnlySysVars(s, key)`: a virtual variable is computed afresh
   * (the transaction's start timestamp, the process-wide general-log switch,
   * the configuration text); any other variable is first looked up in the
   * overlay, then a variable without global scope yields its default, and
   * only a variable with global scope and no overlay entry is left to the
   * global store.
   */
  function GetSessionOnlySysVars(cat: Catalog, systems: map<string, string>, txnStartTS: uint64,
                                 generalLog: uint32, config: Result<string, Error>, key: string): (r: Lookup)
    ensures key !in cat ==> r == Failed(UnknownSystemVar(Some(key)))
    ensures key in cat && cat[key].name == TiDBCurrentTS ==>
      r.Found? && Canonical(r.value) && ParseUint64(r.value) == Some(txnStartTS)
    ensures key in cat && cat[key].name == TiDBGeneralLog ==>
      r.Found? && Canonical(r.value) && ParseUint64(r.value) == Some(generalLog)
    ensures key in cat && cat[key].name == TiDBConfig ==>
      r == (if config.Ok? then Found(config.value) else Failed(config.error))
    ensures key in cat && cat[key].name !in VirtualVars ==>
      && (key in systems ==> r == Found(systems[key]))
      && (key !in systems && !HasGlobal(cat[key].scope) ==> r == Found(cat[key].value))
      && (key !in systems && HasGlobal(cat[key].scope) ==> r == NotFound)
    ensures r.NotFound? ==> key in cat && key !in systems && HasGlobal(cat[key].scope)
  {
    if key !in cat then Failed(UnknownSystemVar(Some(key)))
    else
      var sv := cat[key];
      if sv.name == TiDBCurrentTS then
        FormatNatValue(txnStartTS);
        ParseFormatUint(txnStartTS);
        Found(FormatNat(txnStartTS))
      else if sv.name == TiDBGeneralLog then
        FormatNatValue(generalLog);
        ParseFormatUint(generalLog);
        Found(FormatNat(generalLog))
      else if sv.name == TiDBConfig then
        match config
        case Ok(j) => Found(j)
        case Err(e) => Failed(e)
      else if key in systems then Found(systems[key])
      else if !HasGlobal(sv.scope) then Found(sv.value)
      else NotFound
  }

  /** A variable stored in the session overlay: catalogued, and not one of the virtual ones. */
  predicate Storable(cat: Catalog, key: string)
  {
    key in cat && cat[key].name !in VirtualVars
  }

  /**
   * Caching what the global store answered for a variable the session had
   * to fetch makes later session reads of it return that value, and leaves
   * every other name's session read as it was.
   */
  lemma CachedReadStable(cat: Catalog, systems: map<string, string>, txnStartTS: uint64,
                         generalLog: uint32, config: Result<string, Error>, key: string, fetched: string)
    requires GetSessionOnlySysVars(cat, systems, txnStartTS, generalLog, config, key).NotFound?
    ensures GetSessionOnlySysVars(cat, systems[key := fetched], txnStartTS, generalLog, config, key) == Found(fetched)
    ensures forall other :: other != key ==>
      GetSessionOnlySysVars(cat, systems[key := fetched], txnStartTS, generalLog, config, other)
      == GetSessionOnlySysVars(cat, systems, txnStartTS, generalLog, config, other)
  {
  }

  /** After a value is stored for a stored variable, the session read returns exactly that value. */
  lemma ReadAfterWrite(cat: Catalog, systems: map<string, string>, txnStartTS: uint64,
                       generalLog: uint32, config: Result<string, Error>, key: string, stored: string)
    requires Storable(cat, key)
    ensures GetSessionOnlySysVars(cat, systems[key := stored], txnStartTS, generalLog, config, key) == Found(stored)
  {
  }

  /**
   * After a session value is removed, the session read falls back to the
   * default of a variable without global scope and to the global store
   * otherwise; it never reports an error.
   */
  lemma ReadAfterDelete(cat: Catalog, systems: map<string, string>, txnStartTS: uint64,
                        generalLog: uint32, config: Result<string, Error>, key: string)
    requires Storable(cat, key)
    ensures GetSessionOnlySysVars(cat, systems - {key}, txnStartTS, generalLog, config, key)
            == if HasGlobal(cat[key].scope) then NotFound else Found(cat[key].value)
  {
  }

  /** The session overlay has no influence on what a virtual variable reads as. */
  lemma VirtualIgnoresOverlay(cat: Catalog, systems1: map<string, string>, systems2: map<string, string>,
                              txnStartTS: uint64, generalLog: uint32, config: Result<string, Error>, key: string)
    requires key in cat && cat[key].name in VirtualVars
    ensures GetSessionOnlySysVars(cat, systems1, txnStartTS, generalLog, config, key)
            == GetSessionOnlySysVars(cat, systems2, txnStartTS, generalLog, config, key)
  {
  }

  /** The warnings a validation appends: none, or the one it reported. */
  function WarningList(w: Option<Warning>): seq<Warning>
  {
    match w
    case Some(x) => [x]
    case None => []
  }

  /** What a `types.Datum` offers when a variable is set: SQL NULL, its text, or a conversion error. */
  datatype Datum = NullDatum | Textual(text: string) | NotTextual(error: Error)

  /** `types.ParseTime` followed by `GoTime(time.Local)`: a parse error, or the nanoseconds since the epoch with any conversion error. */
  datatype TimeParse = BadTime(error: Error) | LocalTime(unixNano: int64, conversion: Option<Error>)

  /** `SessionVars`, reduced to the fields the variable layer reads and writes. */
  class SessionVars {
    /** The overlay `systems`, keyed by lower-case name. */
    var systems: map<string, string>
    /** The warnings of the current statement context. */
    var warnings: seq<Warning>
    var snapshotTS: uint64
    /** `TxnCtx.StartTS`, the current transaction's start timestamp. */
    var txnStartTS: uint64

    /** Every name in the overlay is a catalogued variable. */
    predicate OverlayKnown(cat: Catalog)
      reads this
    {
      forall k :: k in systems ==> k in cat
    }

    constructor (startTS: uint64)
      ensures systems == map[] && warnings == [] && snapshotTS == 0 && txnStartTS == startTS
    {
      systems := map[];
      warnings := [];
      snapshotTS := 0;
      txnStartTS := startTS;
    }

    /**
     * `ValidateSetSystemVar(vars, name, value)`: the value to store, or the
     * error; a clamped value also appends its warning to the statement.
     */
    method ValidateSetSystemVar(cat: Catalog, name: string, value: string) returns (r: Result<string, Error>)
      modifies this`warnings
      ensures var c := CheckValue(cat, name, value);
        && (c.Rejected? ==> r == Err(c.error) && warnings == old(warnings))
        && (c.Accepted? ==> r == Ok(c.value) && warnings == old(warnings) + WarningList(c.warning))
    {
      var c := CheckValue(cat, name, value);
      match c {
        case Rejected(e) =>
          r := Err(e);
        case Accepted(v, w) =>
          if w.Some? {
            warnings := warnings + [w.value];
          }
          r := Ok(v);
      }
    }

    /**
     * `GetSessionSystemVar(s, key)`: the session-only read of the lower-case
     * name; when that leaves the variable to the global store, the store's
     * answer, which is then cached in the overlay.
     */
    method GetSessionSystemVar(cat: Catalog, proc: ProcessVars, config: Result<string, Error>,
                               fetch: Accessor, key: string) returns (r: Result<string, Error>)
      modifies this`systems
      ensures var k := Lower(key);
        match GetSessionOnlySysVars(cat, old(systems), txnStartTS, proc.generalLog, config, k)
        case Failed(e) => r == Err(e) && systems == old(systems)
        case Found(v) => r == Ok(v) && systems == old(systems)
        case NotFound => r == fetch(k) && systems == (if r.Ok? then old(systems)[k := r.value] else old(systems))
      ensures old(OverlayKnown(cat)) ==> OverlayKnown(cat)
    {
      var k := Lower(key);
      var local := GetSessionOnlySysVars(cat, systems, txnStartTS, proc.generalLog, config, k);
      match local {
        case Failed(e) =>
          r := Err(e);
        case Found(v) =>
          r := Ok(v);
        case NotFound =>
          r := fetch(k);
          if r.Ok? {
            systems := systems[k := r.value];
          }
      }
    }

    /**
     * `SetSessionSystemVar(vars, name, value)`: an unknown name is refused
     * and NULL removes the session value; otherwise the value's text is
     * validated and, when accepted, its normalised form is stored under the
     * lower-case name.
     */
    method SetSessionSystemVar(cat: Catalog, name: string, value: Datum) returns (r: Outcome<Error>)
      modifies this`systems, this`warnings
      ensures var k := Lower(name);
        && (k !in cat ==> r == Fail(UnknownSystemVar(None)) && systems == old(systems) && warnings == old(warnings))
        && (k in cat && value.NullDatum? ==> r == Pass && systems == old(systems) - {k} && warnings == old(warnings))
        && (k in cat && value.NotTextual? ==> r == Fail(value.error) && systems == old(systems) && warnings == old(warnings))
        && (k in cat && value.Textual? ==>
              match CheckValue(cat, k, value.text)
              case Rejected(e) => r == Fail(e) && systems == old(systems) && warnings == old(warnings)
              case Accepted(v, w) => r == Pass && systems == old(systems)[k := v] && warnings == old(warnings) + WarningList(w))
      ensures old(OverlayKnown(cat)) ==> OverlayKnown(cat)
    {
      var k := Lower(name);
      if k !in cat {
        return Fail(UnknownSystemVar(None));
      }
      match value {
        case NullDatum =>
          systems := systems - {k};
          r := Pass;
        case NotTextual(e) =>
          r := Fail(e);
        case Textual(text) =>
          var checked := ValidateSetSystemVar(cat, k, text);
          match checked {
            case Err(e) =>
              r := Fail(e);
            case Ok(v) =>
              systems := systems[k := v];
              r := Pass;
          }
      }
    }

    /**
     * `setSnapshotTS(s, sVal)`: the empty text clears the snapshot, a decimal
     * unsigned 64-bit number is the timestamp itself, and any other text is
     * read as a timestamp literal whose time is converted by `GoTimeToTS`.
     */
    method SetSnapshotTS(sVal: string, parseTime: string -> TimeParse) returns (r: Outcome<Error>)
      modifies this`snapshotTS
      ensures sVal == "" ==> r == Pass && snapshotTS == 0
      ensures sVal != "" && ParseUint64(sVal).Some? ==> r == Pass && snapshotTS == ParseUint64(sVal).value
      ensures Canonical(sVal) && ParseUint64(sVal).Some? ==> FormatNat(snapshotTS) == sVal
      ensures sVal != "" && ParseUint64(sVal).None? ==>
        match parseTime(sVal)
        case BadTime(e) => r == Fail(e) && snapshotTS == old(snapshotTS)
        case LocalTime(nanos, conversion) =>
          && snapshotTS == GoTimeToTS(nanos)
          && r == (if conversion.Some? then Fail(conversion.value) else Pass)
    {
      if sVal == "" {
        snapshotTS := 0;
        return Pass;
      }
      var tso := ParseUint64(sVal);
      if tso.Some? {
        snapshotTS := tso.value;
        return Pass;
      }
      var t := parseTime(sVal);
      match t {
        case BadTime(e) =>
          r := Fail(e);
        case LocalTime(nanos, conversion) =>
          snapshotTS := GoTimeToTS(nanos);
          r := if conversion.Some? then Fail(conversion.value) else Pass;
      }
    }
  }
}
