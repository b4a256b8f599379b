/** What a valid agent record is, and why projecting and guarded rendering never leave that set. */
module AgentRecords {
  import opened Wrappers
  import opened Text
  import opened AgentSchema

  // ----- validity in its own terms -----

  /** The string is a value somewhere inside. */
  predicate Holds(v: Json, s: string)
    decreases v
  {
    match v
    case Str(t) => s == t
    case Arr(items) => exists i | 0 <= i < |items| :: Holds(items[i], s)
    case Obj(fields) => exists i | 0 <= i < |fields| :: Holds(fields[i].value, s)
    case _ => false
  }

  ghost predicate Clean(d: Detectors, v: Json) {
    forall s | Holds(v, s) :: !Dirty(d, s)
  }

  /** A positive outcome only for verified work that is complete, or a preview, with exit code 0; exit code 0 only
      without a negative outcome; exit code 2 only for work that could not run. */
  predicate SoundResult(r: Fields) {
    var exit, outcome := Get(r, "exit"), Get(r, "outcome");
    && IsBool(Get(r, "verified")) && IsBool(Get(r, "complete"))
    && (IsPositive(outcome) ==>
          && Get(r, "verified") == Some(Bool(true))
          && (Get(r, "complete") == Some(Bool(true)) || IsPreview(r))
          && EqualsInt(exit, 0))
    && (EqualsInt(exit, 0) ==> !IsNegative(outcome))
    && (EqualsInt(exit, 2) ==> CannotRun(outcome))
  }

  predicate SoundSummary(r: Fields) {
    var total, emitted, omitted := Get(r, "total"), Get(r, "emitted"), Get(r, "omitted");
    IsBool(Get(r, "complete")) && IsInt(total) && IsInt(emitted) && IsInt(omitted) && IntOf(emitted) + IntOf(omitted) == IntOf(total)
  }

  predicate SoundError(r: Fields) {
    EqualsInt(Get(r, "exit"), 2) && CannotRun(Get(r, "outcome")) && Get(r, "complete") != Some(Bool(true))
  }

  /** Everything but the text of the strings. */
  predicate WellFormed(r: Fields) {
    var kind := Get(r, "kind");
    && IsStr(Get(r, "schema"), SCHEMA_VERSION) && IsKind(kind) && NonBlank(Get(r, "cmd"))
    && (!IsStr(kind, "item") ==> GoodExit(Get(r, "exit")) && IsOutcome(Get(r, "outcome")))
    && (IsStr(kind, "result") ==> SoundResult(r))
    && (IsStr(kind, "summary") ==> SoundSummary(r))
    && (IsStr(kind, "error") ==> SoundError(r))
  }

  ghost predicate Valid(d: Detectors, r: Fields) {
    WellFormed(r) && Clean(d, Obj(r))
  }

  // ----- the violations say exactly that -----

  lemma KindIsOne(kind: Option<Json>)
    requires IsKind(kind)
    ensures IsStr(kind, "result") || IsStr(kind, "summary") || IsStr(kind, "error") || IsStr(kind, "item")
    ensures IsStr(kind, "item") ==> !IsStr(kind, "result") && !IsStr(kind, "summary") && !IsStr(kind, "error")
    ensures IsStr(kind, "error") ==> !IsStr(kind, "result") && !IsStr(kind, "summary")
    ensures IsStr(kind, "summary") ==> !IsStr(kind, "result")
  {
    assert "result"[0] == 'r' && "summary"[0] == 's' && "error"[0] == 'e' && "item"[0] == 'i';
  }

  lemma OutcomeFacts(o: Option<Json>)
    ensures IsPositive(o) ==> !CannotRun(o)
    ensures IsOutcome(o) || IsPositive(o) ==> o.Some? && o.value.Str?
  {
    if IsPositive(o) {
      assert o.value.s in {"clean", "ok", "conforms"};
      assert |"clean"| == 5 && |"ok"| == 2 && |"conforms"| == 8 && |"cannot-run"| == 10 && |"error"| == 5 && "clean"[0] != "error"[0];
    }
  }

  lemma ExitIsOne(exit: Option<Json>)
    requires GoodExit(exit)
    ensures EqualsInt(exit, 0) || EqualsInt(exit, 1) || EqualsInt(exit, 2)
    ensures EqualsInt(exit, 0) ==> !EqualsInt(exit, 1) && !EqualsInt(exit, 2)
    ensures EqualsInt(exit, 1) ==> !EqualsInt(exit, 2)
  {
  }

  lemma ParityExactly(exit: Option<Json>, outcome: Option<Json>)
    requires GoodExit(exit)
    ensures ExitParity(exit, outcome) == [] <==>
              (IsPositive(outcome) ==> EqualsInt(exit, 0))
              && (EqualsInt(exit, 0) ==> !IsNegative(outcome)) && (EqualsInt(exit, 2) ==> CannotRun(outcome))
  {
    hide IsPositive, IsNegative, CannotRun, EqualsInt;
    ExitIsOne(exit);
    OutcomeFacts(outcome);
  }

  lemma BoolTruth(v: Option<Json>)
    requires IsBool(v)
    ensures TruthyOr(v) <==> v == Some(Bool(true))
  {
  }

  lemma Joined(a: seq<Violation>, b: seq<Violation>)
    ensures a + b == [] <==> a == [] && b == []
  {
  }

  lemma ResultExactly(r: Fields)
    requires GoodExit(Get(r, "exit"))
    ensures ResultViolations(r) == [] <==> SoundResult(r)
  {
    var outcome, verified, complete := Get(r, "outcome"), Get(r, "verified"), Get(r, "complete");
    ParityExactly(Get(r, "exit"), outcome);
    if IsBool(verified) {
      BoolTruth(verified);
    }
    if IsBool(complete) {
      BoolTruth(complete);
    }
    hide IsPositive, IsNegative, CannotRun, EqualsInt, ExitParity, Get, TruthyOr, IsBool, IsPreview;
  }

  lemma {:induction false} MissingExactly(r: Fields, names: seq<string>)
    ensures Missing(r, names) == [] <==> forall i | 0 <= i < |names| :: Get(r, names[i]).Some?
  {
    hide Get;
    if names != [] {
      MissingExactly(r, names[1..]);
      assert forall i | 0 < i < |names| :: names[i] == names[1..][i - 1];
    }
  }

  lemma {:induction false} NumbersExactly(r: Fields, names: seq<string>)
    ensures NotNumbers(r, names) == [] <==> forall i | 0 <= i < |names| :: Get(r, names[i]).Some? ==> IsInt(Get(r, names[i]))
  {
    hide Get, IsInt;
    if names != [] {
      NumbersExactly(r, names[1..]);
      assert forall i | 0 < i < |names| :: names[i] == names[1..][i - 1];
    }
  }

  lemma SummaryExactly(r: Fields)
    ensures SummaryViolations(r) == [] <==> SoundSummary(r)
  {
    MissingExactly(r, REQUIRED);
    NumbersExactly(r, COUNTS);
    assert REQUIRED[0] == "total" && REQUIRED[1] == "emitted" && REQUIRED[2] == "omitted" && REQUIRED[3] == "complete" && |REQUIRED| == 4;
    assert COUNTS[0] == "total" && COUNTS[1] == "emitted" && COUNTS[2] == "omitted" && |COUNTS| == 3;
    hide Get, Missing, NotNumbers;
  }

  lemma ErrorExactly(r: Fields)
    ensures ErrorViolations(r) == [] <==> SoundError(r)
  {
    hide Get, EqualsInt, CannotRun;
  }

  lemma ClosingExactly(r: Fields)
    ensures ClosingViolations(r) == [] <==> GoodExit(Get(r, "exit")) && IsOutcome(Get(r, "outcome"))
  {
    hide Get, GoodExit, InWords;
    OutcomeFacts(Get(r, "outcome"));
  }

  lemma RulesExactly(r: Fields)
    ensures EnvelopeViolations(r) == [] && KindViolations(r) == [] <==> WellFormed(r)
  {
    hide IsKind, IsStr, NonBlank, GoodExit, IsOutcome, SoundResult, SoundSummary, SoundError,
      ResultViolations, SummaryViolations, ErrorViolations, ClosingViolations, Get;
    ClosingExactly(r);
    if GoodExit(Get(r, "exit")) {
      ResultExactly(r);
    }
    SummaryExactly(r);
    ErrorExactly(r);
    if IsKind(Get(r, "kind")) {
      KindIsOne(Get(r, "kind"));
    }
  }

  lemma {:induction false} StringsExactly(d: Detectors, v: Json)
    ensures StringViolations(d, v) == [] <==> Clean(d, v)
    decreases v, 1, 0
  {
    match v {
      case Str(s) => assert Holds(v, s);
      case Arr(items) => ItemsExactly(d, v, items);
        assert forall i | 0 <= i < |items| :: forall s | Holds(items[i], s) :: Holds(v, s);
      case Obj(fields) => FieldsExactly(d, v, fields);
        assert forall i | 0 <= i < |fields| :: forall s | Holds(fields[i].value, s) :: Holds(v, s);
      case _ =>
    }
  }

  lemma {:induction false} ItemsExactly(d: Detectors, whole: Json, items: seq<Json>)
    requires forall i | 0 <= i < |items| :: items[i] < whole
    ensures ItemViolations(d, whole, items) == [] <==> forall i | 0 <= i < |items| :: Clean(d, items[i])
    decreases whole, 0, |items|
  {
    hide Clean, StringViolations;
    if items != [] {
      StringsExactly(d, items[0]);
      ItemsExactly(d, whole, items[1..]);
      assert forall i | 0 < i < |items| :: items[i] == items[1..][i - 1];
    }
  }

  lemma {:induction false} FieldsExactly(d: Detectors, whole: Json, fields: Fields)
    requires forall i | 0 <= i < |fields| :: fields[i].value < whole
    ensures FieldViolations(d, whole, fields) == [] <==> forall i | 0 <= i < |fields| :: Clean(d, fields[i].value)
    decreases whole, 0, |fields|
  {
    hide Clean, StringViolations;
    if fields != [] {
      StringsExactly(d, fields[0].value);
      FieldsExactly(d, whole, fields[1..]);
      assert forall i | 0 < i < |fields| :: fields[i] == fields[1..][i - 1];
    }
  }

  /** The validator reports nothing exactly on valid records. */
  lemma NoViolationExactly(d: Detectors, r: Fields)
    ensures Violations(d, r) == [] <==> Valid(d, r)
  {
    hide EnvelopeViolations, KindViolations, StringViolations, WellFormed, Clean;
    RulesExactly(r);
    StringsExactly(d, Obj(r));
  }

  // ----- the validator's code -----

  method CheckEnvelope(r: Fields) returns (errors: seq<Violation>)
    ensures errors == EnvelopeViolations(r)
  {
    hide IsStr, IsKind, NonBlank, Get;
    errors := [];
    if !IsStr(Get(r, "schema"), SCHEMA_VERSION) {
      errors := errors + [BadSchema];
    }
    if !IsKind(Get(r, "kind")) {
      errors := errors + [BadKind];
    }
    if !NonBlank(Get(r, "cmd")) {
      errors := errors + [BadCmd];
    }
  }

  method CheckClosing(r: Fields) returns (errors: seq<Violation>)
    ensures errors == ClosingViolations(r)
  {
    hide GoodExit, IsOutcome, Get;
    errors := [];
    var outcome := Get(r, "outcome");
    if !GoodExit(Get(r, "exit")) {
      errors := errors + [BadExit];
    }
    if outcome.None? || !outcome.value.Str? {
      errors := errors + [OutcomeNotString];
    } else if !IsOutcome(outcome) {
      errors := errors + [UnknownOutcome];
    }
  }

  method CheckResult(r: Fields) returns (errors: seq<Violation>)
    ensures errors == ResultViolations(r)
  {
    hide ResultTypes, ResultClaims, ExitParity, Get;
    var types := CheckResultTypes(r);
    var claims := CheckResultClaims(r);
    var parity := CheckParity(Get(r, "exit"), Get(r, "outcome"));
    errors := types + claims + parity;
  }

  method CheckResultTypes(r: Fields) returns (errors: seq<Violation>)
    ensures errors == ResultTypes(r)
  {
    hide Get, IsBool;
    errors := [];
    if !IsBool(Get(r, "verified")) {
      errors := errors + [NoVerified];
    }
    if !IsBool(Get(r, "complete")) {
      errors := errors + [NoComplete];
    }
  }

  method CheckResultClaims(r: Fields) returns (errors: seq<Violation>)
    ensures errors == ResultClaims(r)
  {
    hide Get, IsPositive, TruthyOr, IsPreview;
    errors := [];
    if !TruthyOr(Get(r, "verified")) && IsPositive(Get(r, "outcome")) {
      errors := errors + [PositiveUnverified];
    }
    if !TruthyOr(Get(r, "complete")) && !IsPreview(r) && IsPositive(Get(r, "outcome")) {
      errors := errors + [PositiveIncomplete];
    }
  }

  method CheckParity(exit: Option<Json>, outcome: Option<Json>) returns (errors: seq<Violation>)
    ensures errors == ExitParity(exit, outcome)
  {
    hide EqualsInt, IsNegative, IsPositive, CannotRun;
    errors := [];
    if EqualsInt(exit, 0) {
      if IsNegative(outcome) {
        errors := [ExitZeroNegative];
      }
    } else if EqualsInt(exit, 1) {
      if IsPositive(outcome) {
        errors := [ExitOnePositive];
      }
    } else if EqualsInt(exit, 2) {
      if !CannotRun(outcome) {
        errors := [ExitTwoOther];
      }
    }
  }

  lemma JoinTwice(a: seq<Violation>, b: seq<Violation>, c: seq<Violation>)
    ensures a + (b + c) == a + b + c
  {
  }

  lemma IfIs(bad: bool, v: Violation)
    ensures If(bad, v) == if bad then [v] else []
  {
  }

  lemma MissingStep(r: Fields, names: seq<string>)
    requires names != []
    ensures Missing(r, names) == If(Get(r, names[0]).None?, SummaryMissing(names[0])) + Missing(r, names[1..])
  {
  }

  lemma NumbersStep(r: Fields, names: seq<string>)
    requires names != []
    ensures NotNumbers(r, names)
            == If(Get(r, names[0]).Some? && !IsInt(Get(r, names[0])), SummaryNumberType(names[0])) + NotNumbers(r, names[1..])
  {
  }

  method CheckMissing(r: Fields, names: seq<string>) returns (errors: seq<Violation>)
    ensures errors == Missing(r, names)
  {
    errors := [];
    assert names[0..] == names;
    for n := 0 to |names|
      invariant Missing(r, names) == errors + Missing(r, names[n..])
    {
      hide *;
      assert names[n..][0] == names[n] && names[n..][1..] == names[n + 1..];
      MissingStep(r, names[n..]);
      JoinTwice(errors, If(Get(r, names[n]).None?, SummaryMissing(names[n])), Missing(r, names[n + 1..]));
      IfIs(Get(r, names[n]).None?, SummaryMissing(names[n]));
      if Get(r, names[n]).None? {
        errors := errors + [SummaryMissing(names[n])];
      } else {
        assert errors + [] == errors;
      }
    }
    assert names[|names|..] == [];
  }

  method CheckNumbers(r: Fields, names: seq<string>) returns (errors: seq<Violation>)
    ensures errors == NotNumbers(r, names)
  {
    errors := [];
    assert names[0..] == names;
    for n := 0 to |names|
      invariant NotNumbers(r, names) == errors + NotNumbers(r, names[n..])
    {
      hide *;
      assert names[n..][0] == names[n] && names[n..][1..] == names[n + 1..];
      var bad := Get(r, names[n]).Some? && !IsInt(Get(r, names[n]));
      NumbersStep(r, names[n..]);
      JoinTwice(errors, If(bad, SummaryNumberType(names[n])), NotNumbers(r, names[n + 1..]));
      IfIs(bad, SummaryNumberType(names[n]));
      if bad {
        errors := errors + [SummaryNumberType(names[n])];
      } else {
        assert errors + [] == errors;
      }
    }
    assert names[|names|..] == [];
  }

  method CheckSummary(r: Fields) returns (errors: seq<Violation>)
    ensures errors == SummaryViolations(r)
  {
    hide Get, IsInt, IsBool, Missing, NotNumbers;
    errors := CheckMissing(r, REQUIRED);
    if Get(r, "complete").Some? && !IsBool(Get(r, "complete")) {
      errors := errors + [SummaryCompleteType];
    }
    var numbers := CheckNumbers(r, COUNTS);
    errors := errors + numbers;
    var total, emitted, omitted := Get(r, "total"), Get(r, "emitted"), Get(r, "omitted");
    if IsInt(total) && IsInt(emitted) && IsInt(omitted) {
      if IntOf(emitted) + IntOf(omitted) != IntOf(total) {
        errors := errors + [SummaryCounts];
      }
    }
  }

  method CheckError(r: Fields) returns (errors: seq<Violation>)
    ensures errors == ErrorViolations(r)
  {
    hide Get, EqualsInt, CannotRun;
    errors := [];
    if !EqualsInt(Get(r, "exit"), 2) {
      errors := errors + [ErrorExit];
    }
    if !CannotRun(Get(r, "outcome")) {
      errors := errors + [ErrorOutcome];
    }
    if Get(r, "complete") == Some(Bool(true)) {
      errors := errors + [ErrorComplete];
    }
  }

  lemma ItemsStep(d: Detectors, whole: Json, items: seq<Json>, n: nat)
    requires n < |items| && forall i | 0 <= i < |items| :: items[i] < whole
    ensures ItemViolations(d, whole, items[n..]) == StringViolations(d, items[n]) + ItemViolations(d, whole, items[n + 1..])
  {
    hide StringViolations;
    assert items[n..][0] == items[n] && items[n..][1..] == items[n + 1..];
  }

  lemma FieldsStep(d: Detectors, whole: Json, fields: Fields, n: nat)
    requires n < |fields| && forall i | 0 <= i < |fields| :: fields[i].value < whole
    ensures FieldViolations(d, whole, fields[n..]) == StringViolations(d, fields[n].value) + FieldViolations(d, whole, fields[n + 1..])
  {
    hide StringViolations;
    assert fields[n..][0] == fields[n] && fields[n..][1..] == fields[n + 1..];
  }

  lemma Behind(a: seq<Violation>, b: seq<Violation>, c: seq<Violation>)
    ensures a + (b + c) == (a + b) + c
  {
  }

  /** The closure that walks every value. */
  method CheckStrings(d: Detectors, v: Json) returns (errors: seq<Violation>)
    ensures errors == StringViolations(d, v)
    decreases v, 1
  {
    hide ItemViolations, FieldViolations;
    errors := [];
    match v {
      case Str(s) =>
        if d.ansi(s) {
          errors := errors + [AnsiIn(s)];
        }
        if d.home(s) {
          errors := errors + [HomePathIn(s)];
        }
      case Arr(items) =>
        errors := CheckItems(d, v, items);
      case Obj(fields) =>
        errors := CheckFields(d, v, fields);
      case _ =>
    }
  }

  method CheckItems(d: Detectors, ghost whole: Json, items: seq<Json>) returns (errors: seq<Violation>)
    requires forall i | 0 <= i < |items| :: items[i] < whole
    ensures errors == ItemViolations(d, whole, items)
    decreases whole, 0
  {
    hide StringViolations;
    errors := [];
    assert items[0..] == items;
    for n := 0 to |items|
      invariant ItemViolations(d, whole, items) == errors + ItemViolations(d, whole, items[n..])
    {
      hide ItemViolations;
      ItemsStep(d, whole, items, n);
      var more := CheckStrings(d, items[n]);
      Behind(errors, more, ItemViolations(d, whole, items[n + 1..]));
      errors := errors + more;
    }
    assert items[|items|..] == [];
  }

  method CheckFields(d: Detectors, ghost whole: Json, fields: Fields) returns (errors: seq<Violation>)
    requires forall i | 0 <= i < |fields| :: fields[i].value < whole
    ensures errors == FieldViolations(d, whole, fields)
    decreases whole, 0
  {
    hide StringViolations;
    errors := [];
    assert fields[0..] == fields;
    for n := 0 to |fields|
      invariant FieldViolations(d, whole, fields) == errors + FieldViolations(d, whole, fields[n..])
    {
      hide FieldViolations;
      FieldsStep(d, whole, fields, n);
      var more := CheckStrings(d, fields[n].value);
      Behind(errors, more, FieldViolations(d, whole, fields[n + 1..]));
      errors := errors + more;
    }
    assert fields[|fields|..] == [];
  }

  /** `validate_agent_record`: no error is reported exactly when the record is valid. */
  method Validate(d: Detectors, r: Fields) returns (errors: seq<Violation>)
    ensures errors == Violations(d, r)
    ensures errors == [] <==> Valid(d, r)
  {
    hide EnvelopeViolations, ClosingViolations, ResultViolations, SummaryViolations, ErrorViolations, StringViolations, Get, Valid;
    var kind := Get(r, "kind");
    errors := CheckEnvelope(r);
    if IsStr(kind, "result") || IsStr(kind, "summary") || IsStr(kind, "error") {
      var more := CheckClosing(r);
      errors := errors + more;
    }
    if IsStr(kind, "result") {
      var more := CheckResult(r);
      errors := errors + more;
    } else if IsStr(kind, "summary") {
      var more := CheckSummary(r);
      errors := errors + more;
    } else if IsStr(kind, "error") {
      var more := CheckError(r);
      errors := errors + more;
    }
    var strings := CheckStrings(d, Obj(r));
    errors := errors + strings;
    NoViolationExactly(d, r);
  }
}
