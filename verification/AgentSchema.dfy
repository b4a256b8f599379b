/** `agent_schema.py`: the validator of `aw.agent/v1` records, field projection, and the guarded renderer that
    must never emit an invalid record. The two leak detectors are parameters. */
module AgentSchema {
  import opened Wrappers
  import opened Text

  datatype Json =
    | Null
    | Bool(b: bool)
    | Number(i: int)
    | Float(r: real)
    | Str(s: string)
    | Arr(items: seq<Json>)
    | Obj(fields: seq<Field>)

  datatype Field = Field(name: string, value: Json)

  type Fields = seq<Field>

  /** What a string value must not hold. */
  datatype Detectors = Detectors(ansi: string -> bool, home: string -> bool)

  predicate Dirty(d: Detectors, s: string) {
    d.ansi(s) || d.home(s)
  }

  const SCHEMA_VERSION: string := "aw.agent/v1"
  const LAST_RESORT: string := "aw.agent/v1 record failed schema validation"
  const PREFIX: string := "Invalid aw.agent/v1 record: "

  // ----- reading fields as Python does -----

  /** `record.get(name)` */
  function Get(r: Fields, name: string): Option<Json> {
    if r == [] then None else if r[0].name == name then Some(r[0].value) else Get(r[1..], name)
  }

  predicate IsStr(v: Option<Json>, s: string) {
    v == Some(Str(s))
  }

  /** A string in one of the closed vocabularies. */
  predicate InWords(v: Option<Json>, words: set<string>) {
    v.Some? && v.value.Str? && v.value.s in words
  }

  /** `isinstance(v, int)`: a bool is one. */
  predicate IsInt(v: Option<Json>) {
    v.Some? && (v.value.Number? || v.value.Bool?)
  }

  function IntOf(v: Option<Json>): int
    requires IsInt(v)
  {
    match v.value
    case Number(i) => i
    case Bool(b) => if b then 1 else 0
  }

  /** `v == n`, which a float can also be. */
  predicate EqualsInt(v: Option<Json>, n: int) {
    (IsInt(v) && IntOf(v) == n) || (v.Some? && v.value.Float? && v.value.r == n as real)
  }

  predicate IsBool(v: Option<Json>) {
    v.Some? && v.value.Bool?
  }

  predicate Truthy(v: Json) {
    match v
    case Null => false
    case Bool(b) => b
    case Number(i) => i != 0
    case Float(r) => r != 0.0
    case Str(s) => s != ""
    case Arr(items) => items != []
    case Obj(fields) => fields != []
  }

  /** `record.get(name, True)` as a condition. */
  predicate TruthyOr(v: Option<Json>) {
    v.None? || Truthy(v.value)
  }

  predicate IsKind(v: Option<Json>) {
    InWords(v, {"result", "summary", "item", "error"})
  }

  predicate IsOutcome(v: Option<Json>) {
    InWords(v, {"clean", "ok", "conforms", "findings", "fail", "preview", "stale", "skipped", "partial", "unverified",
                "changed-unverified", "cannot-run", "error"})
  }

  predicate IsPositive(v: Option<Json>) {
    InWords(v, {"clean", "ok", "conforms"})
  }

  predicate IsNegative(v: Option<Json>) {
    InWords(v, {"findings", "fail", "cannot-run", "error", "unverified"})
  }

  predicate CannotRun(v: Option<Json>) {
    InWords(v, {"cannot-run", "error"})
  }

  // ----- the rules -----

  datatype Violation =
    | BadSchema | BadKind | BadCmd | BadExit | OutcomeNotString | UnknownOutcome
    | NoVerified | NoComplete | PositiveUnverified | PositiveIncomplete
    | ExitZeroNegative | ExitOnePositive | ExitTwoOther
    | SummaryMissing(field: string) | SummaryCompleteType | SummaryNumberType(field: string) | SummaryCounts
    | ErrorExit | ErrorOutcome | ErrorComplete
    | AnsiIn(text: string) | HomePathIn(text: string)

  function If(bad: bool, v: Violation): seq<Violation> {
    if bad then [v] else []
  }

  predicate NonBlank(v: Option<Json>) {
    v.Some? && v.value.Str? && Strip(v.value.s) != ""
  }

  predicate GoodExit(v: Option<Json>) {
    IsInt(v) && 0 <= IntOf(v) <= 2
  }

  function EnvelopeViolations(r: Fields): seq<Violation> {
    If(!IsStr(Get(r, "schema"), SCHEMA_VERSION), BadSchema)
    + If(!IsKind(Get(r, "kind")), BadKind)
    + If(!NonBlank(Get(r, "cmd")), BadCmd)
  }

  /** result, summary and error records carry an exit code and an outcome. */
  function ClosingViolations(r: Fields): seq<Violation> {
    var outcome := Get(r, "outcome");
    If(!GoodExit(Get(r, "exit")), BadExit)
    + (if outcome.None? || !outcome.value.Str? then [OutcomeNotString] else If(!IsOutcome(outcome), UnknownOutcome))
  }

  predicate IsPreview(r: Fields) {
    IsStr(Get(r, "outcome"), "preview") || Get(r, "applied") == Some(Bool(false))
  }

  function ExitParity(exit: Option<Json>, outcome: Option<Json>): seq<Violation> {
    if EqualsInt(exit, 0) then If(IsNegative(outcome), ExitZeroNegative)
    else if EqualsInt(exit, 1) then If(IsPositive(outcome), ExitOnePositive)
    else if EqualsInt(exit, 2) then If(!CannotRun(outcome), ExitTwoOther)
    else []
  }

  function ResultTypes(r: Fields): seq<Violation> {
    If(!IsBool(Get(r, "verified")), NoVerified) + If(!IsBool(Get(r, "complete")), NoComplete)
  }

  /** A positive outcome must not be claimed for unverified or incomplete work. */
  function ResultClaims(r: Fields): seq<Violation> {
    var positive := IsPositive(Get(r, "outcome"));
    If(!TruthyOr(Get(r, "verified")) && positive, PositiveUnverified)
    + If(!TruthyOr(Get(r, "complete")) && !IsPreview(r) && positive, PositiveIncomplete)
  }

  function ResultViolations(r: Fields): seq<Violation> {
    ResultTypes(r) + ResultClaims(r) + ExitParity(Get(r, "exit"), Get(r, "outcome"))
  }

  function Missing(r: Fields, names: seq<string>): seq<Violation> {
    if names == [] then [] else If(Get(r, names[0]).None?, SummaryMissing(names[0])) + Missing(r, names[1..])
  }

  function NotNumbers(r: Fields, names: seq<string>): seq<Violation> {
    if names == [] then []
    else If(Get(r, names[0]).Some? && !IsInt(Get(r, names[0])), SummaryNumberType(names[0])) + NotNumbers(r, names[1..])
  }

  const COUNTS: seq<string> := ["total", "emitted", "omitted"]
  const REQUIRED: seq<string> := ["total", "emitted", "omitted", "complete"]

  function CountViolations(r: Fields): seq<Violation> {
    var total, emitted, omitted := Get(r, "total"), Get(r, "emitted"), Get(r, "omitted");
    If(IsInt(total) && IsInt(emitted) && IsInt(omitted) && IntOf(emitted) + IntOf(omitted) != IntOf(total), SummaryCounts)
  }

  function SummaryViolations(r: Fields): seq<Violation> {
    Missing(r, REQUIRED)
    + If(Get(r, "complete").Some? && !IsBool(Get(r, "complete")), SummaryCompleteType)
    + NotNumbers(r, COUNTS)
    + CountViolations(r)
  }

  function ErrorViolations(r: Fields): seq<Violation> {
    If(!EqualsInt(Get(r, "exit"), 2), ErrorExit)
    + If(!CannotRun(Get(r, "outcome")), ErrorOutcome)
    + If(Get(r, "complete") == Some(Bool(true)), ErrorComplete)
  }

  function KindViolations(r: Fields): seq<Violation> {
    var kind := Get(r, "kind");
    (if IsStr(kind, "result") || IsStr(kind, "summary") || IsStr(kind, "error") then ClosingViolations(r) else [])
    + (if IsStr(kind, "result") then ResultViolations(r)
       else if IsStr(kind, "summary") then SummaryViolations(r)
       else if IsStr(kind, "error") then ErrorViolations(r)
       else [])
  }

  /** Every string value, however deep; names of fields are not looked at. */
  function StringViolations(d: Detectors, v: Json): seq<Violation>
    decreases v, 1, 0
  {
    match v
    case Str(s) => If(d.ansi(s), AnsiIn(s)) + If(d.home(s), HomePathIn(s))
    case Arr(items) => ItemViolations(d, v, items)
    case Obj(fields) => FieldViolations(d, v, fields)
    case _ => []
  }

  function ItemViolations(d: Detectors, ghost whole: Json, items: seq<Json>): seq<Violation>
    requires forall i | 0 <= i < |items| :: items[i] < whole
    decreases whole, 0, |items|
  {
    if items == [] then [] else StringViolations(d, items[0]) + ItemViolations(d, whole, items[1..])
  }

  function FieldViolations(d: Detectors, ghost whole: Json, fields: Fields): seq<Violation>
    requires forall i | 0 <= i < |fields| :: fields[i].value < whole
    decreases whole, 0, |fields|
  {
    if fields == [] then [] else StringViolations(d, fields[0].value) + FieldViolations(d, whole, fields[1..])
  }

  function Violations(d: Detectors, r: Fields): seq<Violation> {
    EnvelopeViolations(r) + KindViolations(r) + StringViolations(d, Obj(r))
  }
}
