# TiDB system variables: validation, scoped reads and session writes

This project models the system-variable layer of TiDB
(`sessionctx/variable/varsutil.go`) in Dafny and proves properties of it. The
layer has several jobs:

- It looks variables up in an immutable catalog keyed by lower-case name.
- It decides whether a name may be read in a session or global context.
- It validates and normalises a value before the value is stored.
- It clamps out-of-range integers and records a *truncated wrong value*
  warning for them.
- It answers session reads in a fixed order: virtual variables first, then
  the session overlay, then the compiled-in default of a variable without
  global scope, and only then the global store, whose answer is cached in the
  overlay.
- It parses switch and integer options, and encodes wall-clock times as
  timestamps.

Modules:

- `Wrappers`: `Option`, `Result` and `Outcome`.
- `Text`: ASCII lower-casing and Go's `strings.EqualFold` on the characters the
  layer compares against.
- `Numbers`: Go's 64-bit integer types, `strconv.ParseInt`/`Atoi`/`ParseUint`,
  and `%d` formatting, with round-trip lemmas.
- `Catalog`: scopes, descriptors, error and warning kinds, and the variable
  names the validator dispatches on.
- `Validator`: `ValidateSetSystemVar` as the pure function `CheckValue`, with
  one family lemma per group of `switch` cases and an idempotence theorem.
- `Scope`: `ValidateGetSystemVar`, `GetScopeNoneSystemVar` and
  `GetGlobalSystemVar`.
- `Options`: `TiDBOptOn`, `tidbOptPositiveInt32`, `tidbOptInt64`,
  `GoTimeToTS`, and the process-wide `ProcessVars` class holding the DDL
  reorganisation worker count and the general-log switch.
- `Session`: the pure read `GetSessionOnlySysVars`, and the `SessionVars`
  class. The class holds the overlay map, the statement warnings, the snapshot
  timestamp and the transaction start timestamp. Its methods
  `ValidateSetSystemVar`, `GetSessionSystemVar`, `SetSessionSystemVar` and
  `SetSnapshotTS` update these fields under `modifies` clauses.

Inputs the layer gets from elsewhere are parameters of the model:

- the catalog;
- the global-variable accessor, a function from name to `Result`;
- the JSON text of the configuration, or its marshalling error;
- the time parser, a function from text to `TimeParse`;
- the transaction start timestamp.

## Model

| member | source | states |
|---|---|---|
| Text.Lower | sessionctx/variable/varsutil.go:125 | `strings.ToLower` keeps the length of the name |
| Text.LowerIsLower | sessionctx/variable/varsutil.go:125 | a lower-cased name is lower case, and a name is lower case exactly when lower-casing leaves it unchanged |
| Text.LowerIdempotent | sessionctx/variable/varsutil.go:48 | lower-casing a key twice is the same as once |
| Text.EqualFoldPlainWord | sessionctx/variable/varsutil.go:188-193 | `strings.EqualFold` against an ASCII keyword without 's' or 'k' is equality after lower-casing, so no non-ASCII character matches |
| Text.EqualFoldIgnoresCase | sessionctx/variable/varsutil.go:302 | `strings.EqualFold` gives the same answer after both sides are lower-cased |
| Text.LowerAt | sessionctx/variable/varsutil.go:95 | lower-casing works character by character |
| Numbers.ParseUint64 | sessionctx/variable/varsutil.go:414 | `strconv.ParseUint(s, 10, 64)`: a digit string is read as its value when below 2^64 and refused otherwise; nothing but a digit string is accepted, so a sign is refused; a canonical one prints back to itself |
| Numbers.ParseInt64 | sessionctx/variable/varsutil.go:175 | `strconv.ParseInt(s, 10, 64)`, and `Atoi` on a 64-bit platform: only a digit string, or one sign followed by a digit string, is ever accepted, so the empty text, a bare sign, trailing blanks or letters and exponents are refused; a plain digit string yields its value below 2^63 and is refused above; a minus sign gives a number not above zero (its exact value: `Numbers.ParseMinusSign`), a plus sign reads as absent (`Numbers.ParsePlusSign`) |
| Numbers.FormatNat | sessionctx/variable/varsutil.go:71 | `%d` of a number is a non-empty digit string that starts with '0' only for zero |
| Numbers.FormatNatValue | sessionctx/variable/varsutil.go:71 | the printed text is canonical and denotes the number printed |
| Numbers.FormatParse | sessionctx/variable/varsutil.go:414-417 | reading canonical digits and printing them gives the same text |
| Numbers.ParseFormatUint | sessionctx/variable/varsutil.go:414-417 | `ParseUint` reads back every printed unsigned 64-bit number |
| Numbers.ParseFormatInt | sessionctx/variable/varsutil.go:175 | `Atoi` reads back every printed non-negative signed 64-bit number |
| Numbers.ParsePlusSign | sessionctx/variable/varsutil.go:175 | a leading '+' is read as if absent |
| Numbers.ParseMinusSign | sessionctx/variable/varsutil.go:175 | a leading '-' negates the digits after it; the text is refused exactly when their value exceeds 2^63 |
| Numbers.ParseFormatNegative | sessionctx/variable/varsutil.go:352 | `ParseInt` reads back every printed negative signed 64-bit number, down to -2^63 |
| Numbers.ParsersAgree | sessionctx/variable/varsutil.go:206 | the signed and unsigned parsers agree on digit strings both accept |
| Numbers.SignedText | sessionctx/variable/varsutil.go:206 | the unsigned parser refuses a sign; a minus with digits is never positive |
| Numbers.FormatStep | sessionctx/variable/varsutil.go:71 | the text of 10n+d is the text of n followed by the digit d |
| Catalog.GetSysVar | sessionctx/variable/varsutil.go:168 | a name in any case finds the descriptor of its lower-case form, and finds nothing otherwise |
| Validator.CheckValue | sessionctx/variable/varsutil.go:166-359 | `DEFAULT` in any case yields the catalog default, or an unknown-variable error naming the input; a warning always names the variable and the text given; every error names the variable being set |
| Validator.CheckValueFamilies | sessionctx/variable/varsutil.go:173-358 | only clamped variables warn; `warning_count` and `error_count` are always refused as read-only; `time_zone` stores `SYSTEM` for any spelling of it and other text unchanged; names outside the switch are accepted unchanged |
| Validator.ApplyShape | sessionctx/variable/varsutil.go:173-358 | only a clamp warns, and every rule's error names the variable |
| Validator.NormalizeShape | sessionctx/variable/varsutil.go:187-195 | an enumeration never warns and fails only with a wrong-value error carrying the text |
| Validator.NormalizeFirstMatch | sessionctx/variable/varsutil.go:187-195 | an enumeration accepts exactly when some token matches, and stores the canonical form of the first token that matches |
| Validator.NormalizeTwo | sessionctx/variable/varsutil.go:310-315 | a two-token enumeration: the first match wins, no match is a wrong-value error |
| Validator.NormalizeThree | sessionctx/variable/varsutil.go:292-300 | a three-token enumeration: the first match wins, no match is a wrong-value error |
| Validator.RuleOfClamped | sessionctx/variable/varsutil.go:174-291 | the switch clamps exactly the nine clamped variables |
| Validator.RuleOfReadOnly | sessionctx/variable/varsutil.go:306-307 | the read-only counters take the read-only case |
| Validator.RuleOfOnOff | sessionctx/variable/varsutil.go:308-315 | the digit-form switches take the ON/OFF-to-digit case |
| Validator.RuleOfSwitch | sessionctx/variable/varsutil.go:316-323 | the pass-through switches take the pass-through case |
| Validator.RuleOfPositive | sessionctx/variable/varsutil.go:324-341 | the positive-integer variables take the positive-integer case |
| Validator.RuleOfInt64 | sessionctx/variable/varsutil.go:342-356 | the 64-bit variables take the 64-bit case |
| Validator.RuleOfTimeZone | sessionctx/variable/varsutil.go:301-305 | `time_zone` takes the time-zone case |
| Validator.RuleOfOthers | sessionctx/variable/varsutil.go:358 | a name outside every case is accepted as given |
| Validator.RuleOfRewriting | sessionctx/variable/varsutil.go:187-358 | only `delay_key_write`, `session_track_gtids` and the digit-form switches take the enumeration rule, and only `time_zone` the time-zone rule; every rule other than a clamp, an enumeration and the time zone stores the text it accepts unchanged, without a warning |
| Validator.SmallBoundTexts | sessionctx/variable/varsutil.go:181-277 | the small bound texts "0", "1", "2", "4", "7", "255" are the decimal renderings of the bounds |
| Validator.MaxConnectionsText | sessionctx/variable/varsutil.go:238 | "100000" is the decimal rendering of the bound |
| Validator.MaxSortLengthText | sessionctx/variable/varsutil.go:251 | "8388608" is the decimal rendering of the bound |
| Validator.MaxUint32Text | sessionctx/variable/varsutil.go:290 | "4294967295" is the decimal rendering of 2^32 - 1 |
| Validator.MaxUint64Text | sessionctx/variable/varsutil.go:216 | "18446744073709551615" is the decimal rendering of 2^64 - 1 |
| Validator.RuleOfClampedRange | sessionctx/variable/varsutil.go:174-291 | each clamp case uses the parser, bounds and bound texts of the table of ranges |
| Validator.ClampFamily | sessionctx/variable/varsutil.go:174-291 | a clamped variable: unparsable text is a type error; below the range stores the lower bound with one warning; above it stores the upper bound with one warning; in range stores the text unchanged with none |
| Validator.WeekFormatNegative | sessionctx/variable/varsutil.go:174-182 | `default_week_format = -5` stores "0" with one truncation warning naming the variable and "-5" |
| Validator.ClampStoresInRange | sessionctx/variable/varsutil.go:174-291 | what a clamped variable stores parses as a number inside its range |
| Validator.DelayKeyWriteValues | sessionctx/variable/varsutil.go:187-195 | `delay_key_write` stores ON, OFF or ALL exactly for their spellings and digits, and otherwise is a wrong-value error |
| Validator.SessionTrackGtidsValues | sessionctx/variable/varsutil.go:292-300 | `session_track_gtids` stores OFF, OWN_GTID or ALL_GTIDS exactly for their spellings and digits, and otherwise is a wrong-value error |
| Validator.OnOffFamily | sessionctx/variable/varsutil.go:308-315 | a digit-form switch stores "1" exactly for ON/"1" and "0" exactly for OFF/"0", and rejects anything else |
| Validator.SwitchFamily | sessionctx/variable/varsutil.go:316-323 | a pass-through switch accepts exactly the four switch spellings and stores them unchanged |
| Validator.PositiveIntFamily | sessionctx/variable/varsutil.go:324-341 | unparsable text is a type error; a number not above zero is a value error; the rest is stored unchanged |
| Validator.Int64Family | sessionctx/variable/varsutil.go:342-356 | accepted, unchanged, exactly when the text parses as a signed 64-bit number; otherwise a value error without the value |
| Validator.StoredTextsAreNotDefault | sessionctx/variable/varsutil.go:167 | no text a rule stores in place of the input is a spelling of `DEFAULT` |
| Validator.ClampIdempotent | sessionctx/variable/varsutil.go:174-291 | revalidating what a clamp stored accepts it unchanged, without a warning |
| Validator.EnumIdempotent | sessionctx/variable/varsutil.go:187-315 | revalidating what an enumeration or the time zone stored accepts it unchanged |
| Validator.TimeZoneIdempotent | sessionctx/variable/varsutil.go:301-305 | revalidating a stored time zone accepts it unchanged |
| Validator.CheckIdempotent | sessionctx/variable/varsutil.go:166-359 | for every variable, revalidating an accepted non-`DEFAULT` value's stored form accepts it unchanged and without a warning |
| Scope.ValidateGetSystemVar | sessionctx/variable/varsutil.go:147-163 | unknown names are errors; global-only and constant variables fail exactly for session reads, session-only ones exactly for global reads, both-scope ones never; the error names the scope required |
| Scope.ReadableSomewhere | sessionctx/variable/varsutil.go:147-163 | every known variable is readable in some context, and in both exactly when its scope is both |
| Scope.GetScopeNoneSystemVar | sessionctx/variable/varsutil.go:109-118 | unknown exactly when not catalogued; found, with the default, exactly for constants |
| Scope.GetGlobalSystemVar | sessionctx/variable/varsutil.go:94-105 | the lower-cased name is unknown, a constant's default, or whatever the accessor answers |
| Scope.GlobalReadIgnoresCase | sessionctx/variable/varsutil.go:95 | the global read of a name equals the read of its lower-case form |
| Scope.ConstantsIgnoreStore | sessionctx/variable/varsutil.go:96-99 | a constant's global read does not depend on the store |
| Options.TidbOptPositiveInt32 | sessionctx/variable/varsutil.go:366-372 | a text that parses to a number above zero gives that number; every other text gives the default |
| Options.TidbOptInt64 | sessionctx/variable/varsutil.go:374-380 | a text that parses as a signed 64-bit number gives that number; every other text gives the default |
| Options.TiDBOptOnSpellings | sessionctx/variable/varsutil.go:362-364 | `TiDBOptOn` holds for exactly "1", "ON", "On", "oN" and "on" |
| Options.DefaultKeywordReadsAsDefault | sessionctx/variable/varsutil.go:366-380 | a spelling of `DEFAULT` parses under neither parser, so both integer readers give the default for it, and it never reads as on |
| Options.SwitchFamiliesAgree | sessionctx/variable/varsutil.go:308-323 | both switch families accept the same texts; `TiDBOptOn` reads the text a pass-through switch stored as on exactly when the digit form stores "1" |
| Options.PositiveIntReadBack | sessionctx/variable/varsutil.go:324-341 | a value the positive family accepts is read back by `tidbOptPositiveInt32` as its positive number; a rejected one gives the default |
| Options.Int64ReadBack | sessionctx/variable/varsutil.go:342-356 | a value the 64-bit family accepts is read back by `tidbOptInt64` as its number; a rejected one gives the default |
| Options.GoTimeToTS | sessionctx/variable/varsutil.go:431-434 | the low 18 bits of a timestamp are zero; from the epoch on, it is the milliseconds shifted left by 18 bits |
| Options.ShiftedToUint | sessionctx/variable/varsutil.go:432-433 | wrapping the shift to 64 bits keeps the low 18 bits zero, and changes nothing when the value fits |
| Options.GoTimeToTSMonotone | sessionctx/variable/varsutil.go:431-434 | later times from the epoch on give timestamps no smaller |
| Options.GoTimeToTSDecodes | sessionctx/variable/varsutil.go:431-434 | shifting the timestamp back recovers the milliseconds |
| Options.CappedWorkerCount | sessionctx/variable/varsutil.go:33-35 | the stored count never exceeds 128, and is the request when the request does not |
| Options.ProcessVars.SetDDLReorgWorkerCounter | sessionctx/variable/varsutil.go:32-37 | stores the capped count and changes nothing else |
| Options.ProcessVars.GetDDLReorgWorkerCounter | sessionctx/variable/varsutil.go:40-42 | returns the stored count |
| Session.GetSessionOnlySysVars | sessionctx/variable/varsutil.go:63-91 | unknown names are errors; the virtual timestamp and general-log variables read as canonical decimal text, exactly `%d`, that parses back to their values; the configuration reads as its text or its error; other variables read from the overlay, else a session-only default, else are left to the global store, which happens only for a global-scope variable absent from the overlay |
| Session.CachedReadStable | sessionctx/variable/varsutil.go:57 | after the fetched value is cached, the session read of that name returns it and every other name's read is unchanged |
| Session.ReadAfterWrite | sessionctx/variable/varsutil.go:82-85 | after a value is stored for a non-virtual variable, its session read returns that value |
| Session.ReadAfterDelete | sessionctx/variable/varsutil.go:82-90 | after the session value is removed, the read falls back to the default or the global store, never an error |
| Session.VirtualIgnoresOverlay | sessionctx/variable/varsutil.go:69-81 | the overlay never affects a virtual variable's read |
| Session.SessionVars.ValidateSetSystemVar | sessionctx/variable/varsutil.go:166-359 | returns `CheckValue`'s value or error; an error leaves the statement warnings unchanged, and an accepted value appends at most one warning, exactly the one `CheckValue` reported |
| Session.SessionVars.GetSessionSystemVar | sessionctx/variable/varsutil.go:47-59 | answers the session-only read of the lower-cased name; when that leaves the variable to the global store, returns the accessor's answer and caches a successful one; keeps every overlay name catalogued |
| Session.SessionVars.SetSessionSystemVar | sessionctx/variable/varsutil.go:124-144 | unknown names change nothing; NULL removes the session value; a conversion or validation error changes nothing; an accepted value's normalised form is stored under the lower-cased name with its warning appended |
| Session.SessionVars.SetSnapshotTS | sessionctx/variable/varsutil.go:408-428 | empty text clears the snapshot; an unsigned decimal is the snapshot itself, and a canonical one prints back to the text it was set from; other text goes to the time parser, where a parse error changes nothing and a parsed time is stored through `GoTimeToTS` |

## Left out

- Text.EqualFold: `strings.EqualFold` is modelled only on the characters that
  fold to an ASCII letter (the ASCII letters, U+017F and U+212A). Every keyword
  the layer compares against is ASCII, but other non-ASCII case pairs and
  invalid UTF-8 are not modelled.
- Text.Lower: `strings.ToLower` is modelled only on ASCII letters; a name with
  a non-ASCII capital is not lower-cased as Go would.
- `GetSysVar`, the catalog `SysVars`, `deleteSystemVar`, `SetSystemVar`, the
  variable-name constants and `maxDDLReorgWorkerCount` (128) are defined in
  files that are not part of this model. `GetSysVar` is modelled as a lookup
  of the lower-cased name. `deleteSystemVar` is modelled as removal from the
  overlay, and `SetSystemVar` as an update of the overlay; any other session
  fields they update are left out.
- Session.SessionVars.SetSessionSystemVar: does not model the extra work of
  `SetSystemVar`, such as setting `tidb_snapshot` or the process-wide
  general-log switch, because that code is not part of this model.
- `parseTimeZone` (lines 382-406) is left out. It loads time-zone databases and
  parses durations, so it depends on the operating system's zone files.
- `types.ParseTime`, `GoTime(time.Local)` and `UnixNano` are left out for the
  same reason, and depend on the local time zone. `SetSnapshotTS` takes their
  outcome as a parameter.
- The global-variable accessor and `json.MarshalIndent` of the configuration:
  the accessor is a function parameter, and the configuration is modelled as
  its text or its marshalling error.
- `Datum.ToString` is modelled as the value's text or a conversion error, through
  the `Datum` datatype.
- Atomic loads and stores are modelled as plain field accesses. Concurrency is
  not modelled.
- Error messages are not formatted. An error keeps its kind and its arguments.
  Stack traces added by `errors.Trace` are not modelled.
- A Go error return also carries a string. When the error is not nil it is the
  input text or "", and callers ignore it, so the model does not carry it.
- Numbers.ParseInt64: `strconv.Atoi` is modelled as `strconv.ParseInt(s, 10, 64)`,
  which assumes Go's `int` is 64 bits wide. Syntax errors and range errors are
  not told apart, since the layer only tests whether an error occurred.
- Options.GoTimeToTS: for times before the epoch, the contract states only that
  the low 18 bits are zero. The value itself follows Go's truncating division
  and its wrap-around, and is computed but not characterised further.
