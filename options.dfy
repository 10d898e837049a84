/**
 * The numeric helpers of the variable layer: reading switch and integer
 * options with a fallback, encoding a wall-clock time as a timestamp, and
 * the process-wide DDL reorganisation worker count.
 */
module Options {
  import opened Wrappers
  import opened Text
  import opened Numbers
  import opened Catalog
  import opened Validator

  /** `TiDBOptOn(opt)`: a switch is on when it reads ON (in any case) or "1". */
  predicate TiDBOptOn(opt: string)
  {
    EqualFold(opt, "ON") || opt == "1"
  }

  /** A switch reads as on for exactly five texts: "1" and the four capitalisations of ON. */
  lemma TiDBOptOnSpellings(opt: string)
    ensures TiDBOptOn(opt) <==> opt in {"1", "ON", "On", "oN", "on"}
  {
    EqualFoldPlainWord(opt, "ON");
    assert Lower("ON") == "on";
    if Lower(opt) == "on" {
      LowerAt(opt, 0);
      LowerAt(opt, 1);
      assert opt == [opt[0], opt[1]];
    }
  }

  /** `tidbOptPositiveInt32(opt, defaultVal)`: the parsed value if it is above zero, else the default. */
  function TidbOptPositiveInt32(opt: string, defaultVal: int64): (r: int64)
    ensures ParseInt64(opt).Some? && ParseInt64(opt).value > 0 ==> r == ParseInt64(opt).value
    ensures !(ParseInt64(opt).Some? && ParseInt64(opt).value > 0) ==> r == defaultVal
  {
    match ParseInt64(opt)
    case Some(v) => if v <= 0 then defaultVal else v
    case None => defaultVal
  }

  /** `tidbOptInt64(opt, defaultVal)`: the parsed value, or the default when the text does not parse. */
  function TidbOptInt64(opt: string, defaultVal: int64): (r: int64)
    ensures ParseInt64(opt).Some? ==> r == ParseInt64(opt).value
    ensures ParseInt64(opt).None? ==> r == defaultVal
  {
    match ParseInt64(opt)
    case Some(v) => v
    case None => defaultVal
  }

  /**
   * The two switch families accept the same spellings, and what they store
   * means the same: the digit-form family stores "1" exactly when the
   * pass-through family's stored text reads as on.
   */
  lemma SwitchFamiliesAgree(cat: Catalog, digitForm: string, passThrough: string, value: string)
    requires digitForm in OnOffVars && passThrough in SwitchVars && !IsDefaultKeyword(value)
    ensures var r1 := CheckValue(cat, digitForm, value);
            var r2 := CheckValue(cat, passThrough, value);
            && (r1.Accepted? <==> r2.Accepted?)
            && (r1.Accepted? ==> (r1.value == "1" <==> TiDBOptOn(r2.value)))
            && (r1.Accepted? ==> (TiDBOptOn(r1.value) <==> TiDBOptOn(r2.value)))
  {
    OnOffFamily(cat, digitForm, value);
    SwitchFamily(cat, passThrough, value);
  }

  /**
   * A value the positive-integer family accepts is read back by
   * `tidbOptPositiveInt32` as its own number; a rejected one gives the default.
   */
  lemma PositiveIntReadBack(cat: Catalog, name: string, value: string, defaultVal: int64)
    requires name in PositiveIntVars && !IsDefaultKeyword(value)
    ensures CheckValue(cat, name, value).Accepted? ==>
      ParseInt64(value).Some? && ParseInt64(value).value > 0
      && TidbOptPositiveInt32(value, defaultVal) == ParseInt64(value).value
    ensures CheckValue(cat, name, value).Rejected? ==> TidbOptPositiveInt32(value, defaultVal) == defaultVal
  {
    PositiveIntFamily(cat, name, value);
  }

  /** A value the 64-bit family accepts is read back by `tidbOptInt64` as its number; a rejected one gives the default. */
  lemma Int64ReadBack(cat: Catalog, name: string, value: string, defaultVal: int64)
    requires name in Int64Vars && !IsDefaultKeyword(value)
    ensures CheckValue(cat, name, value).Accepted? ==>
      ParseInt64(value).Some? && TidbOptInt64(value, defaultVal) == ParseInt64(value).value
    ensures CheckValue(cat, name, value).Rejected? ==> TidbOptInt64(value, defaultVal) == defaultVal
  {
    Int64Family(cat, name, value);
  }

  /**
   * A spelling of `DEFAULT` is never a number, so both integer readers give
   * the default for it, and it never reads as on.
   */
  lemma DefaultKeywordReadsAsDefault(value: string, defaultVal: int64)
    requires IsDefaultKeyword(value)
    ensures ParseInt64(value).None? && ParseUint64(value).None?
    ensures TidbOptPositiveInt32(value, defaultVal) == defaultVal && TidbOptInt64(value, defaultVal) == defaultVal
    ensures !TiDBOptOn(value)
  {
    assert FoldChar(value[0]) == FoldChar("DEFAULT"[0]);
    assert FoldChar(value[1]) == FoldChar("DEFAULT"[1]);
  }

  // ---------------------------------------------------------------------------
  // Timestamps

  /** `epochShiftBits`: the low bits of a timestamp reserved for its logical part. */
  const EpochShiftBits: nat := 18
  const EpochShift: int := 0x40000

  /** Go's integer division of an `int64` by a positive constant, which truncates toward zero. */
  function TruncDiv(a: int, b: int): int
    requires b > 0
  {
    if a >= 0 then a / b else -((-a) / b)
  }

  /** A signed 64-bit result that wrapped around, as Go's `<<` on `int64` does. */
  function WrapInt64(x: int): int64
  {
    (x + TWO_63) % TWO_64 - TWO_63
  }

  /** Go's `uint64(x)` on an `int64`: the same 64 bits read as unsigned. */
  function ToUint64(x: int64): uint64
  {
    x % TWO_64
  }

  /**
   * `GoTimeToTS(t)`, given `t.UnixNano()`: the milliseconds since the epoch
   * shifted left by 18 bits, so the low 18 bits are left for a logical counter.
   */
  function GoTimeToTS(unixNano: int64): (r: uint64)
    ensures r % EpochShift == 0
    ensures unixNano >= 0 ==> r == (unixNano / 1_000_000) * EpochShift
  {
    var ms := TruncDiv(unixNano, 1_000_000);
    ShiftedToUint(ms);
    ToUint64(WrapInt64(ms * EpochShift))
  }

  /** Wrapping to 64 bits keeps the low 18 bits of a shifted value at zero, and changes nothing when it fits. */
  lemma ShiftedToUint(ms: int)
    ensures ToUint64(WrapInt64(ms * EpochShift)) % EpochShift == 0
    ensures 0 <= ms < 0x4000_0000_0000 ==> ToUint64(WrapInt64(ms * EpochShift)) == ms * EpochShift
  {
  }

  /** Later times, from the epoch on, give timestamps that are no smaller. */
  lemma GoTimeToTSMonotone(a: int64, b: int64)
    requires 0 <= a <= b
    ensures GoTimeToTS(a) <= GoTimeToTS(b)
  {
    assert a / 1_000_000 <= b / 1_000_000;
  }

  /** Shifting back right by 18 bits recovers the milliseconds since the epoch. */
  lemma GoTimeToTSDecodes(unixNano: int64)
    requires unixNano >= 0
    ensures GoTimeToTS(unixNano) / EpochShift == unixNano / 1_000_000
  {
  }

  // ---------------------------------------------------------------------------
  // Process-wide state

  /** `maxDDLReorgWorkerCount`, the cap on the DDL reorganisation worker count. */
  const MaxDDLReorgWorkerCount: int32 := 128

  /** The worker count `SetDDLReorgWorkerCounter` stores: the request, capped at the maximum. */
  function CappedWorkerCount(cnt: int32): (r: int32)
    ensures r <= MaxDDLReorgWorkerCount
    ensures r == cnt || r == MaxDDLReorgWorkerCount
    ensures cnt <= MaxDDLReorgWorkerCount ==> r == cnt
  {
    if cnt > MaxDDLReorgWorkerCount then MaxDDLReorgWorkerCount else cnt
  }

  /**
   * The process-wide singletons `ProcessGeneralLog` and
   * `ddlReorgWorkerCounter`, held as plain fields.
   */
  class ProcessVars {
    var generalLog: uint32
    var ddlReorgWorkerCounter: int32

    constructor (generalLog: uint32, ddlReorgWorkerCounter: int32)
      ensures this.generalLog == generalLog && this.ddlReorgWorkerCounter == ddlReorgWorkerCounter
    {
      this.generalLog := generalLog;
      this.ddlReorgWorkerCounter := ddlReorgWorkerCounter;
    }

    /** `SetDDLReorgWorkerCounter(cnt)`: store the requested count, capped at the maximum. */
    method SetDDLReorgWorkerCounter(cnt: int32)
      modifies this`ddlReorgWorkerCounter
      ensures ddlReorgWorkerCounter == CappedWorkerCount(cnt)
      ensures ddlReorgWorkerCounter <= MaxDDLReorgWorkerCount
      ensures generalLog == old(generalLog)
    {
      var capped := cnt;
      if capped > MaxDDLReorgWorkerCount {
        capped := MaxDDLReorgWorkerCount;
      }
      ddlReorgWorkerCounter := capped;
    }

    /** `GetDDLReorgWorkerCounter()`: the stored count. */
    method GetDDLReorgWorkerCounter() returns (cnt: int32)
      ensures cnt == ddlReorgWorkerCounter
    {
      cnt := ddlReorgWorkerCounter;
    }
  }
}
