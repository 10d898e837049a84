/**
 * `ValidateSetSystemVar`'s value computation: the rule each variable's new
 * value must satisfy, and the value actually stored. The rules fall into a
 * few families (clamped integers, keyword enumerations, switches, positive
 * and 64-bit integers, read-only counters, the time zone) and a catch-all
 * that accepts anything. The warning a clamp records is returned beside the
 * value; `Session.SessionVars.ValidateSetSystemVar` appends it.
 */
module Validator {
  import opened Wrappers
  import opened Text
  import opened Numbers
  import opened Catalog

  /** The validator's verdict: a value to store and perhaps a warning, or an error. */
  datatype Checked = Accepted(value: string, warning: Option<Warning>) | Rejected(error: Error)

  /** `SET x = DEFAULT`, in any case. */
  predicate IsDefaultKeyword(value: string)
  {
    EqualFold(value, "DEFAULT")
  }

  /** One bound of a clamped integer: the number, and the text stored when a value is clamped to it. */
  datatype Limit = Unbounded | Limit(bound: nat, text: string)

  /** A clamped-integer rule: reject text that does not parse, clamp with a warning, else keep the text. */
  function Clamp(name: string, value: string, parsed: Option<int>, lower: Limit, upper: Limit): Checked
  {
    match parsed
    case None => Rejected(WrongTypeForVar(name))
    case Some(v) =>
      if lower.Limit? && v < lower.bound then Accepted(lower.text, Some(TruncatedWrongValue(name, value)))
      else if upper.Limit? && v > upper.bound then Accepted(upper.text, Some(TruncatedWrongValue(name, value)))
      else Accepted(value, None)
  }

  /** A keyword, its digit alias, and the form stored when either is given. */
  datatype Token = Token(word: string, digit: string, canonical: string)

  /** The keyword matches in any case; the digit must match exactly. */
  predicate Matches(t: Token, value: string)
  {
    EqualFold(value, t.word) || value == t.digit
  }

  /** An enumeration rule: the first token the value matches decides the stored form. */
  function Normalize(name: string, value: string, tokens: seq<Token>): Checked
  {
    if tokens == [] then Rejected(WrongValueForVar(name, Some(value)))
    else if Matches(tokens[0], value) then Accepted(tokens[0].canonical, None)
    else Normalize(name, value, tokens[1..])
  }

  const DelayKeyWriteTokens: seq<Token> := [Token("ON", "1", "ON"), Token("OFF", "0", "OFF"), Token("ALL", "2", "ALL")]
  const SessionTrackGtidsTokens: seq<Token> :=
    [Token("OFF", "0", "OFF"), Token("OWN_GTID", "1", "OWN_GTID"), Token("ALL_GTIDS", "2", "ALL_GTIDS")]
  const OnOffTokens: seq<Token> := [Token("ON", "1", "1"), Token("OFF", "0", "0")]

  /** The four spellings a switch accepts. */
  predicate IsSwitchText(value: string)
  {
    EqualFold(value, "ON") || value == "1" || EqualFold(value, "OFF") || value == "0"
  }

  /** The numeric range of each clamped variable; unsigned ones are read with the unsigned parser. */
  datatype Range = Range(unsigned: bool, lo: nat, hi: Option<nat>)

  const ClampRanges: map<string, Range> := map[
    DefaultWeekFormat := Range(false, 0, Some(7)),
    FlushTime := Range(false, 0, None),
    GroupConcatMaxLen := Range(true, 4, Some(18446744073709551615)),
    InteractiveTimeout := Range(false, 1, None),
    MaxConnections := Range(false, 1, Some(100000)),
    MaxSortLength := Range(false, 4, Some(8388608)),
    MaxSpRecursionDepth := Range(false, 0, Some(255)),
    OldPasswords := Range(false, 0, Some(2)),
    MaxUserConnections := Range(true, 0, Some(4294967295))
  ]

  /** Every name the validator has a rule for; any other name is accepted as it is. */
  const ValidatedVars: set<string> :=
    ClampRanges.Keys + {DelayKeyWrite, SessionTrackGtids, TimeZone}
    + ReadOnlyVars + OnOffVars + SwitchVars + PositiveIntVars + Int64Vars

  /** The error is about the variable `name`. */
  predicate Concerns(e: Error, name: string)
  {
    match e
    case UnknownSystemVar(n) => n == Some(name)
    case IncorrectScope(n, _) => n == name
    case WrongTypeForVar(n) => n == name
    case WrongValueForVar(n, _) => n == name
    case ReadOnly(n) => n == name
    case _ => false
  }

  /** The text parser a clamped variable uses: `strconv.Atoi`/`ParseInt`, or `strconv.ParseUint`. */
  datatype Parser = Signed | Unsigned

  function Parse(p: Parser, value: string): Option<int>
  {
    match p
    case Signed => ParseInt64(value)
    case Unsigned => ParseUint64(value)
  }

  /** The rule families of the validator's `switch`. */
  datatype Rule =
    | ClampRule(parser: Parser, lower: Limit, upper: Limit)
    | EnumRule(tokens: seq<Token>)
    | TimeZoneRule
    | ReadOnlyRule
    | SwitchRule
    | PositiveRule
    | Int64Rule
    | AnyValue

  /** The `switch name` of `ValidateSetSystemVar`, case by case and in its order. */
  function RuleOf(name: string): Rule
  {
    if name == DefaultWeekFormat then ClampRule(Signed, Limit(0, "0"), Limit(7, "7"))
    else if name == DelayKeyWrite then EnumRule(DelayKeyWriteTokens)
    else if name == FlushTime then ClampRule(Signed, Limit(0, "0"), Unbounded)
    else if name == GroupConcatMaxLen then
      ClampRule(Unsigned, Limit(4, "4"), Limit(18446744073709551615, "18446744073709551615"))
    else if name == InteractiveTimeout then ClampRule(Signed, Limit(1, "1"), Unbounded)
    else if name == MaxConnections then ClampRule(Signed, Limit(1, "1"), Limit(100000, "100000"))
    else if name == MaxSortLength then ClampRule(Signed, Limit(4, "4"), Limit(8388608, "8388608"))
    else if name == MaxSpRecursionDepth then ClampRule(Signed, Limit(0, "0"), Limit(255, "255"))
    else if name == OldPasswords then ClampRule(Signed, Limit(0, "0"), Limit(2, "2"))
    else if name == MaxUserConnections then
      ClampRule(Unsigned, Limit(0, "0"), Limit(4294967295, "4294967295"))
    else if name == SessionTrackGtids then EnumRule(SessionTrackGtidsTokens)
    else if name == TimeZone then TimeZoneRule
    else if name in ReadOnlyVars then ReadOnlyRule
    else if name in OnOffVars then EnumRule(OnOffTokens)
    else if name in SwitchVars then SwitchRule
    else if name in PositiveIntVars then PositiveRule
    else if name in Int64Vars then Int64Rule
    else AnyValue
  }

  /** The body of one `case` of the switch. */
  function Apply(rule: Rule, name: string, value: string): Checked
  {
    match rule
    case ClampRule(p, lower, upper) => Clamp(name, value, Parse(p, value), lower, upper)
    case EnumRule(tokens) => Normalize(name, value, tokens)
    case TimeZoneRule => Accepted(if EqualFold(value, "SYSTEM") then "SYSTEM" else value, None)
    case ReadOnlyRule => Rejected(ReadOnly(name))
    case SwitchRule =>
      if IsSwitchText(value) then Accepted(value, None) else Rejected(WrongValueForVar(name, Some(value)))
    case PositiveRule =>
      (match ParseInt64(value)
       case None => Rejected(WrongTypeForVar(name))
       case Some(v) => if v <= 0 then Rejected(WrongValueForVar(name, Some(value))) else Accepted(value, None))
    case Int64Rule =>
      if ParseInt64(value).Some? then Accepted(value, None) else Rejected(WrongValueForVar(name, None))
    case AnyValue => Accepted(value, None)
  }

  /** `ValidateSetSystemVar(vars, name, value)`, without the append of its warning. */
  function CheckValue(cat: Catalog, name: string, value: string): (r: Checked)
    ensures IsDefaultKeyword(value) ==>
      r == if Lower(name) in cat then Accepted(cat[Lower(name)].value, None) else Rejected(UnknownSystemVar(Some(name)))
    ensures r.Accepted? && r.warning.Some? ==> r.warning.value == TruncatedWrongValue(name, value)
    ensures r.Rejected? ==> Concerns(r.error, name)
  {
    if IsDefaultKeyword(value) then
      match GetSysVar(cat, name)
      case Some(sv) => Accepted(sv.value, None)
      case None => Rejected(UnknownSystemVar(Some(name)))
    else
      var rule := RuleOf(name);
      ApplyShape(rule, name, value);
      Apply(rule, name, value)
  }

  /** Warnings come only from clamped variables; read-only counters always refuse; unlisted names pass. */
  lemma CheckValueFamilies(cat: Catalog, name: string, value: string)
    requires !IsDefaultKeyword(value)
    ensures var r := CheckValue(cat, name, value);
            && (r.Accepted? && r.warning.Some? ==> name in ClampRanges)
            && (name in ReadOnlyVars ==> r == Rejected(ReadOnly(name)))
            && (name == TimeZone ==>
                  r == Accepted(if EqualFold(value, "SYSTEM") then "SYSTEM" else value, None))
            && (name !in ValidatedVars ==> r == Accepted(value, None))
  {
    var rule := RuleOf(name);
    ApplyShape(rule, name, value);
    RuleOfClamped(name);
    if name in ReadOnlyVars {
      RuleOfReadOnly(name);
    } else if name == TimeZone {
      RuleOfTimeZone();
    } else if name !in ValidatedVars {
      RuleOfOthers(name);
    }
  }

  /** The enumeration rule never warns, and its only error is a wrong value. */
  lemma {:induction false} NormalizeShape(name: string, value: string, tokens: seq<Token>)
    ensures var r := Normalize(name, value, tokens);
            && (r.Accepted? ==> r.warning.None?)
            && (r.Rejected? ==> r.error == WrongValueForVar(name, Some(value)))
  {
    if tokens != [] && !Matches(tokens[0], value) {
      NormalizeShape(name, value, tokens[1..]);
    }
  }

  /** Only a clamp warns, and every rule's error names the variable being set. */
  lemma ApplyShape(rule: Rule, name: string, value: string)
    ensures var r := Apply(rule, name, value);
            && (r.Accepted? && r.warning.Some? ==>
                  rule.ClampRule? && r.warning.value == TruncatedWrongValue(name, value))
            && (r.Rejected? ==> Concerns(r.error, name))
  {
    if rule.EnumRule? {
      NormalizeShape(name, value, rule.tokens);
    }
  }

  /** The switch picks a clamp exactly for the clamped variables. */
  lemma RuleOfClamped(name: string)
    ensures RuleOf(name).ClampRule? <==> name in ClampRanges
  {
  }

  lemma RuleOfReadOnly(name: string)
    requires name in ReadOnlyVars
    ensures RuleOf(name) == ReadOnlyRule
  {
  }

  lemma RuleOfOnOff(name: string)
    requires name in OnOffVars
    ensures RuleOf(name) == EnumRule(OnOffTokens)
  {
  }

  lemma RuleOfSwitch(name: string)
    requires name in SwitchVars
    ensures RuleOf(name) == SwitchRule
  {
  }

  lemma RuleOfPositive(name: string)
    requires name in PositiveIntVars
    ensures RuleOf(name) == PositiveRule
  {
    assert name !in ClampRanges && name !in {DelayKeyWrite, SessionTrackGtids, TimeZone};
    assert name !in ReadOnlyVars;
    assert name !in OnOffVars;
    assert name !in SwitchVars;
  }

  lemma RuleOfInt64(name: string)
    requires name in Int64Vars
    ensures RuleOf(name) == Int64Rule
  {
    assert name !in ClampRanges && name !in {DelayKeyWrite, SessionTrackGtids, TimeZone};
    assert name !in ReadOnlyVars;
    assert name !in OnOffVars;
    assert name !in SwitchVars;
    assert name !in PositiveIntVars;
  }

  lemma RuleOfOthers(name: string)
    requires name !in ValidatedVars
    ensures RuleOf(name) == AnyValue
  {
    RuleOfClamped(name);
    assert name != DelayKeyWrite && name != SessionTrackGtids && name != TimeZone;
    assert name !in ReadOnlyVars && name !in OnOffVars && name !in SwitchVars;
    assert name !in PositiveIntVars && name !in Int64Vars;
  }

  lemma RuleOfTimeZone()
    ensures RuleOf(TimeZone) == TimeZoneRule
  {
    RuleOfClamped(TimeZone);
  }

  // ---------------------------------------------------------------------------
  // Clamped integers

  function ParseFor(rg: Range, value: string): Option<int>
  {
    Parse(if rg.unsigned then Unsigned else Signed, value)
  }

  predicate InRange(rg: Range, v: int)
  {
    rg.lo <= v && (rg.hi.Some? ==> v <= rg.hi.value)
  }

  /** The texts stored on a clamp are the decimal renderings of the bounds. */
  lemma SmallBoundTexts()
    ensures FormatNat(0) == "0" && FormatNat(1) == "1" && FormatNat(2) == "2"
    ensures FormatNat(4) == "4" && FormatNat(7) == "7"
    ensures FormatNat(255) == "255"
  {
    FormatStep(2, 5); FormatStep(25, 5);
  }

  lemma MaxConnectionsText()
    ensures FormatNat(100000) == "100000"
  {
    FormatStep(1, 0); FormatStep(10, 0); FormatStep(100, 0); FormatStep(1000, 0); FormatStep(10000, 0);
  }

  lemma MaxSortLengthText()
    ensures FormatNat(8388608) == "8388608"
  {
    FormatStep(8, 3); FormatStep(83, 8); FormatStep(838, 8); FormatStep(8388, 6); FormatStep(83886, 0);
    FormatStep(838860, 8);
  }

  lemma MaxUint32Text()
    ensures FormatNat(4294967295) == "4294967295"
  {
    FormatStep(4, 2); FormatStep(42, 9); FormatStep(429, 4); FormatStep(4294, 9); FormatStep(42949, 6);
    FormatStep(429496, 7); FormatStep(4294967, 2); FormatStep(42949672, 9); FormatStep(429496729, 5);
  }

  lemma MaxUint64Text()
    ensures FormatNat(18446744073709551615) == "18446744073709551615"
  {
    FormatStep(1, 8); FormatStep(18, 4); FormatStep(184, 4); FormatStep(1844, 6); FormatStep(18446, 7);
    FormatStep(184467, 4); FormatStep(1844674, 4); FormatStep(18446744, 0); FormatStep(184467440, 7);
    FormatStep(1844674407, 3); FormatStep(18446744073, 7); FormatStep(184467440737, 0);
    FormatStep(1844674407370, 9); FormatStep(18446744073709, 5); FormatStep(184467440737095, 5);
    FormatStep(1844674407370955, 1); FormatStep(18446744073709551, 6); FormatStep(184467440737095516, 1);
    FormatStep(1844674407370955161, 5);
  }

  /** The limit a range gives a bound: the number and its decimal text. */
  function LimitOf(bound: Option<nat>): Limit
  {
    match bound
    case None => Unbounded
    case Some(b) => Limit(b, FormatNat(b))
  }

  /**
   * The switch's clamp cases agree with the table of ranges: the parser, the
   * bounds, and a stored bound text that is the bound written in decimal.
   */
  lemma RuleOfClampedRange(name: string)
    requires name in ClampRanges
    ensures var rg := ClampRanges[name];
            RuleOf(name) == ClampRule(if rg.unsigned then Unsigned else Signed, LimitOf(Some(rg.lo)), LimitOf(rg.hi))
  {
    SmallBoundTexts();
    if name == DefaultWeekFormat {
    } else if name == FlushTime {
    } else if name == GroupConcatMaxLen {
      MaxUint64Text();
    } else if name == InteractiveTimeout {
    } else if name == MaxConnections {
      MaxConnectionsText();
    } else if name == MaxSortLength {
      MaxSortLengthText();
    } else if name == MaxSpRecursionDepth {
    } else if name == OldPasswords {
    } else {
      assert name == MaxUserConnections;
      MaxUint32Text();
    }
  }

  /**
   * The clamp-and-warn rule of every clamped variable: text that does not
   * parse is a type error with no warning; a value below the range stores the
   * lower bound and one above it the upper bound, each with exactly one
   * warning naming the variable and the text given; a value in range is
   * stored as it was written, with no warning.
   */
  lemma ClampFamily(cat: Catalog, name: string, value: string)
    requires name in ClampRanges && !IsDefaultKeyword(value)
    ensures var rg := ClampRanges[name];
            var r := CheckValue(cat, name, value);
            match ParseFor(rg, value)
            case None => r == Rejected(WrongTypeForVar(name))
            case Some(v) =>
              if v < rg.lo then r == Accepted(FormatNat(rg.lo), Some(TruncatedWrongValue(name, value)))
              else if !InRange(rg, v) then r == Accepted(FormatNat(rg.hi.value), Some(TruncatedWrongValue(name, value)))
              else r == Accepted(value, None)
  {
    RuleOfClampedRange(name);
  }

  /** `default_week_format = -5` parses as a negative number below the range, so "0" is stored with a warning. */
  lemma WeekFormatNegative(cat: Catalog)
    ensures CheckValue(cat, DefaultWeekFormat, "-5")
            == Accepted("0", Some(TruncatedWrongValue(DefaultWeekFormat, "-5")))
  {
    assert DigitsValue("5") == 5 by {
      assert "5"[..0] == [];
    }
    ParseMinusSign("5");
    assert "-" + "5" == "-5";
    ClampFamily(cat, DefaultWeekFormat, "-5");
    SmallBoundTexts();
  }

  /** What a clamped variable stores always reads back as a number inside its range. */
  lemma ClampStoresInRange(cat: Catalog, name: string, value: string)
    requires name in ClampRanges && !IsDefaultKeyword(value)
    requires CheckValue(cat, name, value).Accepted?
    ensures var rg := ClampRanges[name];
            var stored := ParseFor(rg, CheckValue(cat, name, value).value);
            stored.Some? && InRange(rg, stored.value)
  {
    var rg := ClampRanges[name];
    ClampFamily(cat, name, value);
    var parsed := ParseFor(rg, value);
    if !InRange(rg, parsed.value) {
      var bound := if parsed.value < rg.lo then rg.lo else rg.hi.value;
      if rg.unsigned {
        ParseFormatUint(bound);
      } else {
        ParseFormatInt(bound);
      }
    }
  }

  // ---------------------------------------------------------------------------
  // Enumerations

  /**
   * The enumeration rule stores the canonical form of the first token the
   * value matches, and rejects a value that matches none.
   */
  lemma {:induction false} NormalizeFirstMatch(name: string, value: string, tokens: seq<Token>)
    ensures var r := Normalize(name, value, tokens);
            && (r.Accepted? <==> exists i :: 0 <= i < |tokens| && Matches(tokens[i], value))
            && (r.Accepted? ==>
                  && r.warning.None?
                  && exists i :: 0 <= i < |tokens| && Matches(tokens[i], value) && r.value == tokens[i].canonical
                       && forall j :: 0 <= j < i ==> !Matches(tokens[j], value))
            && (r.Rejected? ==> r.error == WrongValueForVar(name, Some(value)))
  {
    if tokens != [] && !Matches(tokens[0], value) {
      NormalizeFirstMatch(name, value, tokens[1..]);
      var r := Normalize(name, value, tokens);
      if r.Accepted? {
        var i :| 0 <= i < |tokens[1..]| && Matches(tokens[1..][i], value) && r.value == tokens[1..][i].canonical
                 && forall j :: 0 <= j < i ==> !Matches(tokens[1..][j], value);
        assert Matches(tokens[i + 1], value) && forall j :: 0 <= j < i + 1 ==> !Matches(tokens[j], value);
      }
      if exists i :: 0 <= i < |tokens| && Matches(tokens[i], value) {
        var i :| 0 <= i < |tokens| && Matches(tokens[i], value);
        assert i > 0 && Matches(tokens[1..][i - 1], value);
      }
    }
  }

  /** The enumeration rule over three tokens, spelled out. */
  lemma NormalizeThree(name: string, value: string, a: Token, b: Token, c: Token)
    ensures Normalize(name, value, [a, b, c]) ==
      if Matches(a, value) then Accepted(a.canonical, None)
      else if Matches(b, value) then Accepted(b.canonical, None)
      else if Matches(c, value) then Accepted(c.canonical, None)
      else Rejected(WrongValueForVar(name, Some(value)))
  {
    assert [a, b, c][1..] == [b, c];
    NormalizeTwo(name, value, b, c);
  }

  /** The enumeration rule over two tokens, spelled out. */
  lemma NormalizeTwo(name: string, value: string, a: Token, b: Token)
    ensures Normalize(name, value, [a, b]) ==
      if Matches(a, value) then Accepted(a.canonical, None)
      else if Matches(b, value) then Accepted(b.canonical, None)
      else Rejected(WrongValueForVar(name, Some(value)))
  {
    assert [a, b][1..] == [b];
    assert [b][1..] == [];
    assert Normalize(name, value, [b]) ==
      if Matches(b, value) then Accepted(b.canonical, None) else Normalize(name, value, []);
  }

  /**
   * `delay_key_write`: ON or "1" stores "ON", OFF or "0" stores "OFF", ALL
   * or "2" stores "ALL" (words in any case, digits exactly); anything else
   * is a wrong-value error.
   */
  lemma DelayKeyWriteValues(cat: Catalog, value: string)
    requires !IsDefaultKeyword(value)
    ensures var r := CheckValue(cat, DelayKeyWrite, value);
            && (r == Accepted("ON", None) <==> EqualFold(value, "ON") || value == "1")
            && (r == Accepted("OFF", None) <==> EqualFold(value, "OFF") || value == "0")
            && (r == Accepted("ALL", None) <==> EqualFold(value, "ALL") || value == "2")
            && r in {Accepted("ON", None), Accepted("OFF", None), Accepted("ALL", None),
                     Rejected(WrongValueForVar(DelayKeyWrite, Some(value)))}
  {
    NormalizeThree(DelayKeyWrite, value, Token("ON", "1", "ON"), Token("OFF", "0", "OFF"), Token("ALL", "2", "ALL"));
  }

  /**
   * `session_track_gtids`: OFF or "0" stores "OFF", OWN_GTID or "1" stores
   * "OWN_GTID", ALL_GTIDS or "2" stores "ALL_GTIDS"; anything else is a
   * wrong-value error.
   */
  lemma SessionTrackGtidsValues(cat: Catalog, value: string)
    requires !IsDefaultKeyword(value)
    ensures var r := CheckValue(cat, SessionTrackGtids, value);
            && (r == Accepted("OFF", None) <==> EqualFold(value, "OFF") || value == "0")
            && (r == Accepted("OWN_GTID", None) <==> EqualFold(value, "OWN_GTID") || value == "1")
            && (r == Accepted("ALL_GTIDS", None) <==> EqualFold(value, "ALL_GTIDS") || value == "2")
            && r in {Accepted("OFF", None), Accepted("OWN_GTID", None), Accepted("ALL_GTIDS", None),
                     Rejected(WrongValueForVar(SessionTrackGtids, Some(value)))}
  {
    NormalizeThree(SessionTrackGtids, value,
      Token("OFF", "0", "OFF"), Token("OWN_GTID", "1", "OWN_GTID"), Token("ALL_GTIDS", "2", "ALL_GTIDS"));
  }

  /** The digit-form switches: ON or "1" stores "1", OFF or "0" stores "0", anything else is rejected. */
  lemma OnOffFamily(cat: Catalog, name: string, value: string)
    requires name in OnOffVars && !IsDefaultKeyword(value)
    ensures var r := CheckValue(cat, name, value);
            && (r == Accepted("1", None) <==> EqualFold(value, "ON") || value == "1")
            && (r == Accepted("0", None) <==> EqualFold(value, "OFF") || value == "0")
            && r in {Accepted("1", None), Accepted("0", None), Rejected(WrongValueForVar(name, Some(value)))}
  {
    RuleOfOnOff(name);
    NormalizeTwo(name, value, Token("ON", "1", "1"), Token("OFF", "0", "0"));
  }

  /** The pass-through switches accept the same four spellings but store the text unchanged. */
  lemma SwitchFamily(cat: Catalog, name: string, value: string)
    requires name in SwitchVars && !IsDefaultKeyword(value)
    ensures var r := CheckValue(cat, name, value);
            && (r.Accepted? <==> IsSwitchText(value))
            && (r.Accepted? ==> r == Accepted(value, None))
            && (r.Rejected? ==> r.error == WrongValueForVar(name, Some(value)))
  {
    RuleOfSwitch(name);
  }

  // ---------------------------------------------------------------------------
  // Integer families

  /**
   * The positive-integer family: text that does not parse is a type error,
   * a number not above zero is a value error, and anything else is stored as
   * written; none of these records a warning.
   */
  lemma PositiveIntFamily(cat: Catalog, name: string, value: string)
    requires name in PositiveIntVars && !IsDefaultKeyword(value)
    ensures var r := CheckValue(cat, name, value);
            && (ParseInt64(value).None? ==> r == Rejected(WrongTypeForVar(name)))
            && (ParseInt64(value).Some? && ParseInt64(value).value <= 0 ==>
                  r == Rejected(WrongValueForVar(name, Some(value))))
            && (r.Accepted? <==> ParseInt64(value).Some? && ParseInt64(value).value > 0)
            && (r.Accepted? ==> r == Accepted(value, None))
  {
    RuleOfPositive(name);
  }

  /** The 64-bit family: accepted, unchanged and without a warning, exactly when the text parses. */
  lemma Int64Family(cat: Catalog, name: string, value: string)
    requires name in Int64Vars && !IsDefaultKeyword(value)
    ensures var r := CheckValue(cat, name, value);
            && (r.Accepted? <==> ParseInt64(value).Some?)
            && (r.Accepted? ==> r == Accepted(value, None))
            && (r.Rejected? ==> r.error == WrongValueForVar(name, None))
  {
    RuleOfInt64(name);
  }

  // ---------------------------------------------------------------------------
  // Idempotence

  /** None of the texts a rule stores in place of the input is a spelling of `DEFAULT`. */
  lemma StoredTextsAreNotDefault()
    ensures !IsDefaultKeyword("0") && !IsDefaultKeyword("1") && !IsDefaultKeyword("2")
    ensures !IsDefaultKeyword("ON") && !IsDefaultKeyword("OFF") && !IsDefaultKeyword("ALL")
    ensures !IsDefaultKeyword("OWN_GTID") && !IsDefaultKeyword("ALL_GTIDS") && !IsDefaultKeyword("SYSTEM")
    ensures forall n: nat :: !IsDefaultKeyword(FormatNat(n))
  {
    forall n: nat ensures !IsDefaultKeyword(FormatNat(n)) {
      var s := FormatNat(n);
      if |s| == 7 {
        assert IsDigit(s[0]);
        assert FoldChar(s[0]) != FoldChar("DEFAULT"[0]);
      }
    }
  }

  /**
   * Only `delay_key_write`, `session_track_gtids` and the digit-form switches
   * take the enumeration rule, and only `time_zone` the time-zone rule; every
   * rule other than a clamp, an enumeration and the time zone stores the text
   * it accepts unchanged and without a warning.
   */
  lemma RuleOfRewriting(name: string, value: string)
    ensures RuleOf(name).EnumRule? ==> name == DelayKeyWrite || name == SessionTrackGtids || name in OnOffVars
    ensures RuleOf(name).TimeZoneRule? ==> name == TimeZone
    ensures var rule := RuleOf(name);
            !rule.ClampRule? && !rule.EnumRule? && !rule.TimeZoneRule? && Apply(rule, name, value).Accepted? ==>
              Apply(rule, name, value) == Accepted(value, None)
  {
  }

  lemma ClampIdempotent(cat: Catalog, name: string, value: string)
    requires name in ClampRanges && !IsDefaultKeyword(value) && CheckValue(cat, name, value).Accepted?
    ensures var stored := CheckValue(cat, name, value).value;
            CheckValue(cat, name, stored) == Accepted(stored, None)
  {
    var stored := CheckValue(cat, name, value).value;
    StoredTextsAreNotDefault();
    ClampFamily(cat, name, value);
    ClampStoresInRange(cat, name, value);
    ClampFamily(cat, name, stored);
  }

  lemma EnumIdempotent(cat: Catalog, name: string, value: string)
    requires name == DelayKeyWrite || name == SessionTrackGtids || name in OnOffVars || name == TimeZone
    requires !IsDefaultKeyword(value) && CheckValue(cat, name, value).Accepted?
    ensures var stored := CheckValue(cat, name, value).value;
            CheckValue(cat, name, stored) == Accepted(stored, None)
  {
    var stored := CheckValue(cat, name, value).value;
    StoredTextsAreNotDefault();
    if name == DelayKeyWrite {
      DelayKeyWriteValues(cat, value);
      DelayKeyWriteValues(cat, stored);
    } else if name == SessionTrackGtids {
      SessionTrackGtidsValues(cat, value);
      SessionTrackGtidsValues(cat, stored);
    } else if name in OnOffVars {
      OnOffFamily(cat, name, value);
      OnOffFamily(cat, name, stored);
    } else {
      TimeZoneIdempotent(cat, value);
    }
  }

  lemma TimeZoneIdempotent(cat: Catalog, value: string)
    requires !IsDefaultKeyword(value)
    ensures var stored := CheckValue(cat, TimeZone, value).value;
            CheckValue(cat, TimeZone, stored) == Accepted(stored, None)
  {
    var stored := CheckValue(cat, TimeZone, value).value;
    StoredTextsAreNotDefault();
    CheckValueFamilies(cat, TimeZone, value);
    CheckValueFamilies(cat, TimeZone, stored);
    assert EqualFold("SYSTEM", "SYSTEM");
  }

  /**
   * Validating a stored value again accepts it unchanged and without a
   * warning: every rule other than `DEFAULT` maps onto values it keeps.
   */
  lemma CheckIdempotent(cat: Catalog, name: string, value: string)
    requires !IsDefaultKeyword(value) && CheckValue(cat, name, value).Accepted?
    ensures var stored := CheckValue(cat, name, value).value;
            CheckValue(cat, name, stored) == Accepted(stored, None)
  {
    if name in ClampRanges {
      ClampIdempotent(cat, name, value);
    } else if name == DelayKeyWrite || name == SessionTrackGtids || name in OnOffVars || name == TimeZone {
      EnumIdempotent(cat, name, value);
    } else {
      RuleOfClamped(name);
      RuleOfRewriting(name, value);
      ApplyShape(RuleOf(name), name, value);
      assert CheckValue(cat, name, value) == Accepted(value, None);
    }
  }
}
