/** Projection to a field set and guarded rendering: both only ever produce valid records. */
module AgentRender {
  import opened Wrappers
  import opened Text
  import opened AgentSchema
  import opened AgentRecords

  // ----- projection -----

  /** `_PRESERVED_FIELDS` */
  const PRESERVED: set<string> :=
    {"schema", "kind", "cmd", "exit", "outcome", "complete", "verified", "applied", "total", "emitted", "omitted", "next"}

  function Keep(r: Fields, allowed: set<string>): Fields {
    if r == [] then [] else (if r[0].name in allowed then [r[0]] else []) + Keep(r[1..], allowed)
  }

  function Named(fields: seq<string>): set<string> {
    set n | n in fields
  }

  /** `filter_record_fields` */
  function Project(r: Fields, fields: seq<string>): Fields {
    if fields == [] then r else Keep(r, PRESERVED + Named(fields))
  }

  lemma {:induction false} KeepGets(r: Fields, allowed: set<string>, name: string)
    ensures Get(Keep(r, allowed), name) == if name in allowed then Get(r, name) else None
  {
    if r != [] {
      var rest := Keep(r[1..], allowed);
      KeepGets(r[1..], allowed, name);
      assert ([r[0]] + rest)[1..] == rest && [] + rest == rest;
    }
  }

  lemma {:induction false} KeepTakes(r: Fields, allowed: set<string>)
    ensures forall f | f in Keep(r, allowed) :: f in r
  {
    if r != [] {
      KeepTakes(r[1..], allowed);
      assert r == [r[0]] + r[1..];
    }
  }

  /** The rules read the preserved fields and nothing else. */
  predicate SameRuled(r: Fields, s: Fields) {
    && Get(r, "schema") == Get(s, "schema") && Get(r, "kind") == Get(s, "kind") && Get(r, "cmd") == Get(s, "cmd")
    && Get(r, "exit") == Get(s, "exit") && Get(r, "outcome") == Get(s, "outcome")
    && Get(r, "complete") == Get(s, "complete") && Get(r, "verified") == Get(s, "verified") && Get(r, "applied") == Get(s, "applied")
    && Get(r, "total") == Get(s, "total") && Get(r, "emitted") == Get(s, "emitted") && Get(r, "omitted") == Get(s, "omitted")
  }

  lemma SameRules(r: Fields, s: Fields)
    requires SameRuled(r, s)
    ensures WellFormed(r) == WellFormed(s)
  {
    hide Get, IsStr, IsKind, NonBlank, GoodExit, IsOutcome, EqualsInt, IsPositive, IsNegative, CannotRun, IsInt, IsBool;
    assert IsPreview(r) == IsPreview(s);
    assert SoundResult(r) == SoundResult(s);
    assert SoundSummary(r) == SoundSummary(s);
    assert SoundError(r) == SoundError(s);
  }

  lemma PreservedNames()
    ensures "schema" in PRESERVED && "kind" in PRESERVED && "cmd" in PRESERVED && "exit" in PRESERVED && "outcome" in PRESERVED
    ensures "complete" in PRESERVED && "verified" in PRESERVED && "applied" in PRESERVED
    ensures "total" in PRESERVED && "emitted" in PRESERVED && "omitted" in PRESERVED
  {
  }

  lemma ProjectGets(r: Fields, fields: seq<string>, preserved: set<string>)
    ensures forall name | name in preserved :: Get(Keep(r, preserved + Named(fields)), name) == Get(r, name)
  {
    hide Get, Keep;
    forall name | name in preserved
      ensures Get(Keep(r, preserved + Named(fields)), name) == Get(r, name)
    {
      KeepGets(r, preserved + Named(fields), name);
    }
  }

  lemma ProjectSame(r: Fields, fields: seq<string>)
    ensures SameRuled(r, Project(r, fields))
  {
    PreservedNames();
    hide Get, Keep, PRESERVED;
    ProjectGets(r, fields, PRESERVED);
  }

  lemma FewerStrings(d: Detectors, r: Fields, s: Fields)
    requires Clean(d, Obj(r)) && forall f | f in s :: f in r
    ensures Clean(d, Obj(s))
  {
    forall t | Holds(Obj(s), t)
      ensures Holds(Obj(r), t)
    {
      var i :| 0 <= i < |s| && Holds(s[i].value, t);
      assert s[i] in r;
      var j :| 0 <= j < |r| && r[j] == s[i];
    }
  }

  /** Projecting a valid record to any fields leaves it valid, and keeps every field asked for. */
  lemma ProjectionStaysValid(d: Detectors, r: Fields, fields: seq<string>)
    requires Valid(d, r)
    ensures Valid(d, Project(r, fields))
    ensures forall name | name in fields :: Get(Project(r, fields), name) == Get(r, name)
  {
    hide Get, Keep, WellFormed, Clean, SameRuled;
    ProjectSame(r, fields);
    SameRules(r, Project(r, fields));
    KeepTakes(r, PRESERVED + Named(fields));
    FewerStrings(d, r, Project(r, fields));
    forall name | name in fields
      ensures Get(Project(r, fields), name) == Get(r, name)
    {
      KeepGets(r, PRESERVED + Named(fields), name);
    }
  }

  // ----- which fields a projection must not drop -----

  function Without(r: Fields, name: string): Fields {
    if r == [] then [] else (if r[0].name == name then [] else [r[0]]) + Without(r[1..], name)
  }

  lemma {:induction false} WithoutGets(r: Fields, name: string, other: string)
    ensures Get(Without(r, name), other) == if other == name then None else Get(r, other)
  {
    if r != [] {
      var rest := Without(r[1..], name);
      WithoutGets(r[1..], name, other);
      assert ([r[0]] + rest)[1..] == rest && [] + rest == rest;
    }
  }

  lemma {:induction false} WithoutTakes(r: Fields, name: string)
    ensures forall f | f in Without(r, name) :: f in r
  {
    if r != [] {
      WithoutTakes(r[1..], name);
      assert r == [r[0]] + r[1..];
    }
  }

  /** The words every record of the protocol is made of are clean. */
  predicate PlainWords(d: Detectors) {
    && !Dirty(d, SCHEMA_VERSION) && !Dirty(d, "error") && !Dirty(d, "aw") && !Dirty(d, LAST_RESORT)
    && !Dirty(d, "result") && !Dirty(d, "summary") && !Dirty(d, "ok")
  }

  /** A result that is valid only because it was not applied. */
  function Unapplied(): Fields {
    [Field("schema", Str(SCHEMA_VERSION)), Field("kind", Str("result")), Field("cmd", Str("aw")), Field("exit", Number(0)),
     Field("outcome", Str("ok")), Field("verified", Bool(true)), Field("complete", Bool(false)), Field("applied", Bool(false))]
  }

  function Counted(): Fields {
    [Field("schema", Str(SCHEMA_VERSION)), Field("kind", Str("summary")), Field("cmd", Str("aw")), Field("exit", Number(0)),
     Field("outcome", Str("ok")), Field("complete", Bool(true)), Field("total", Number(0)), Field("emitted", Number(0)),
     Field("omitted", Number(0))]
  }

  predicate Needed(name: string) {
    name in {"schema", "kind", "cmd", "exit", "outcome", "complete", "verified", "applied", "total", "emitted", "omitted"}
  }

  lemma NeededIsRuled(r: Fields, name: string)
    requires !Needed(name)
    ensures SameRuled(r, Without(r, name))
  {
    hide Get, Without;
    WithoutGets(r, name, "schema");
    WithoutGets(r, name, "kind");
    WithoutGets(r, name, "cmd");
    WithoutGets(r, name, "exit");
    WithoutGets(r, name, "outcome");
    WithoutGets(r, name, "complete");
    WithoutGets(r, name, "verified");
    WithoutGets(r, name, "applied");
    WithoutGets(r, name, "total");
    WithoutGets(r, name, "emitted");
    WithoutGets(r, name, "omitted");
  }

  lemma {:induction false} GetAt(r: Fields, i: nat)
    requires i < |r| && forall j | 0 <= j < i :: r[j].name != r[i].name
    ensures Get(r, r[i].name) == Some(r[i].value)
  {
    if i > 0 {
      GetAt(r[1..], i - 1);
    }
  }

  lemma UnappliedGets()
    ensures var r := Unapplied();
            && Get(r, "schema") == Some(Str(SCHEMA_VERSION)) && Get(r, "kind") == Some(Str("result")) && Get(r, "cmd") == Some(Str("aw"))
            && Get(r, "exit") == Some(Number(0)) && Get(r, "outcome") == Some(Str("ok"))
            && Get(r, "verified") == Some(Bool(true)) && Get(r, "complete") == Some(Bool(false)) && Get(r, "applied") == Some(Bool(false))
  {
    hide Get;
    var r := Unapplied();
    GetAt(r, 0);
    GetAt(r, 1);
    GetAt(r, 2);
    GetAt(r, 3);
    GetAt(r, 4);
    GetAt(r, 5);
    GetAt(r, 6);
    GetAt(r, 7);
  }

  lemma CountedGets()
    ensures var r := Counted();
            && Get(r, "schema") == Some(Str(SCHEMA_VERSION)) && Get(r, "kind") == Some(Str("summary")) && Get(r, "cmd") == Some(Str("aw"))
            && Get(r, "exit") == Some(Number(0)) && Get(r, "outcome") == Some(Str("ok")) && Get(r, "complete") == Some(Bool(true))
            && Get(r, "total") == Some(Number(0)) && Get(r, "emitted") == Some(Number(0)) && Get(r, "omitted") == Some(Number(0))
  {
    hide Get;
    var r := Counted();
    GetAt(r, 0);
    GetAt(r, 1);
    GetAt(r, 2);
    GetAt(r, 3);
    GetAt(r, 4);
    GetAt(r, 5);
    GetAt(r, 6);
    GetAt(r, 7);
    GetAt(r, 8);
  }

  lemma AwIsWord()
    ensures Strip("aw") == "aw"
  {
    assert LStrip("aw") == "aw";
  }

  lemma UnappliedIsWellFormed()
    ensures WellFormed(Unapplied())
  {
    hide Get;
    UnappliedGets();
    AwIsWord();
  }

  lemma CountedIsWellFormed()
    ensures WellFormed(Counted())
  {
    hide Get;
    CountedGets();
    AwIsWord();
  }

  /** A record whose values hold no string but these words. */
  lemma FlatIsClean(d: Detectors, r: Fields)
    requires forall i | 0 <= i < |r| :: match r[i].value case Str(s) => !Dirty(d, s) case Arr(_) => false case Obj(_) => false case _ => true
    ensures Clean(d, Obj(r))
  {
    forall s | Holds(Obj(r), s)
      ensures !Dirty(d, s)
    {
      var i :| 0 <= i < |r| && Holds(r[i].value, s);
    }
  }

  lemma UnappliedNeeds(name: string)
    requires name in {"schema", "kind", "cmd", "exit", "outcome", "complete", "verified", "applied"}
    ensures !WellFormed(Without(Unapplied(), name))
  {
    hide Get, Without, Unapplied;
    UnappliedGets();
    var r, s := Unapplied(), Without(Unapplied(), name);
    WithoutGets(r, name, "schema");
    WithoutGets(r, name, "kind");
    WithoutGets(r, name, "cmd");
    WithoutGets(r, name, "exit");
    WithoutGets(r, name, "outcome");
    WithoutGets(r, name, "complete");
    WithoutGets(r, name, "verified");
    WithoutGets(r, name, "applied");
    if name == "applied" {
      assert !SoundResult(s);
    }
  }

  lemma CountedNeeds(name: string)
    requires name in {"total", "emitted", "omitted"}
    ensures !WellFormed(Without(Counted(), name))
  {
    hide Get, Without, Counted;
    CountedGets();
    var r := Counted();
    WithoutGets(r, name, "kind");
    WithoutGets(r, name, "total");
    WithoutGets(r, name, "emitted");
    WithoutGets(r, name, "omitted");
  }

  lemma OthersAreSpare(d: Detectors, name: string, r: Fields)
    requires !Needed(name) && Valid(d, r)
    ensures Valid(d, Without(r, name))
  {
    hide WellFormed, Clean, SameRuled, Needed, Without;
    NeededIsRuled(r, name);
    SameRules(r, Without(r, name));
    WithoutTakes(r, name);
    FewerStrings(d, r, Without(r, name));
  }

  lemma WordsAreClean(d: Detectors)
    requires PlainWords(d)
    ensures Valid(d, Counted()) && Valid(d, Unapplied())
  {
    FlatIsClean(d, Counted());
    FlatIsClean(d, Unapplied());
    hide Clean, WellFormed, Unapplied, Counted;
    CountedIsWellFormed();
    UnappliedIsWellFormed();
  }

  lemma NeededBreaks(d: Detectors, name: string) returns (r: Fields)
    requires PlainWords(d) && Needed(name)
    ensures Valid(d, r) && !Valid(d, Without(r, name))
  {
    WordsAreClean(d);
    hide WellFormed, Clean, Unapplied, Counted, Without, Dirty;
    if name in {"total", "emitted", "omitted"} {
      CountedNeeds(name);
      r := Counted();
    } else {
      UnappliedNeeds(name);
      r := Unapplied();
    }
  }

  lemma NeededIsPreserved(name: string)
    ensures Needed(name) <==> name in PRESERVED && name != "next"
  {
  }

  /** The preserved fields but `next` are exactly those whose loss can make a valid record invalid. */
  lemma NeededExactly(d: Detectors, name: string)
    requires PlainWords(d)
    ensures (forall r | Valid(d, r) :: Valid(d, Without(r, name))) <==> !(name in PRESERVED && name != "next")
  {
    hide *;
    NeededIsPreserved(name);
    if Needed(name) {
      var r := NeededBreaks(d, name);
    } else {
      forall r | Valid(d, r)
        ensures Valid(d, Without(r, name))
      {
        OthersAreSpare(d, name, r);
      }
    }
  }

  // ----- rendering -----

  /** What a renderer does: a line holding the record, or the exception it raises. */
  datatype Rendered = Line(record: Fields) | ValueError | AttributeError

  /** `render_jsonl_record`. Validating a value that is not an object fails on its missing `get`. */
  function Render(d: Detectors, v: Json): Rendered {
    if !v.Obj? then AttributeError else if Violations(d, v.fields) == [] then Line(v.fields) else ValueError
  }

  /** The shape of every error record built here. */
  function ErrorRecord(cmd: string, text: string): Fields {
    [Field("schema", Str(SCHEMA_VERSION)), Field("kind", Str("error")), Field("cmd", Str(cmd)), Field("exit", Number(2)),
     Field("outcome", Str("error")), Field("verified", Bool(false)), Field("complete", Bool(false)),
     Field("error", Str(text)), Field("next", Null)]
  }

  /** `LAST_RESORT_ERROR_RECORD` */
  function LastResort(): Fields {
    ErrorRecord("aw", LAST_RESORT)
  }

  function JoinRules(rules: seq<string>): string {
    if rules == [] then "" else if |rules| == 1 then rules[0] else rules[0] + "; " + JoinRules(rules[1..])
  }

  /** The command the substitute names, when the record's own is fit to be named. */
  function CleanCommand(d: Detectors, cmd: Option<Json>): string {
    if NonBlank(cmd) && !Dirty(d, Strip(cmd.value.s)) then Strip(cmd.value.s) else "aw"
  }

  function SubstituteText(rule: Violation -> string, errors: seq<Violation>): string {
    if errors == [] then LAST_RESORT else PREFIX + JoinRules(seq(|errors|, i requires 0 <= i < |errors| => rule(errors[i])))
  }

  /** `build_substitute_error_record`; `rule` is the reduction of a violation to its rule text. */
  function Substitute(d: Detectors, rule: Violation -> string, errors: seq<Violation>, cmd: Option<Json>): Fields {
    ErrorRecord(CleanCommand(d, cmd), SubstituteText(rule, errors))
  }

  /** `render_guarded_jsonl_record` once strictness is decided. */
  function RenderGuarded(d: Detectors, rule: Violation -> string, v: Json, strict: bool): Rendered {
    var first := Render(d, v);
    if !first.ValueError? || strict then first
    else
      var substitute := Substitute(d, rule, Violations(d, v.fields), Get(v.fields, "cmd"));
      if Violations(d, substitute) == [] then Line(substitute) else Line(LastResort())
  }

  lemma ErrorRecordGets(cmd: string, text: string)
    ensures var r := ErrorRecord(cmd, text);
            && Get(r, "schema") == Some(Str(SCHEMA_VERSION)) && Get(r, "kind") == Some(Str("error")) && Get(r, "cmd") == Some(Str(cmd))
            && Get(r, "exit") == Some(Number(2)) && Get(r, "outcome") == Some(Str("error")) && Get(r, "complete") == Some(Bool(false))
  {
    hide Get;
    var r := ErrorRecord(cmd, text);
    GetAt(r, 0);
    GetAt(r, 1);
    GetAt(r, 2);
    GetAt(r, 3);
    GetAt(r, 4);
    GetAt(r, 6);
  }

  lemma ErrorRecordWellFormed(cmd: string, text: string)
    requires Strip(cmd) != ""
    ensures WellFormed(ErrorRecord(cmd, text))
  {
    hide Get, ErrorRecord, Strip;
    ErrorRecordGets(cmd, text);
  }

  lemma ErrorRecordClean(d: Detectors, cmd: string, text: string)
    requires PlainWords(d) && !Dirty(d, cmd)
    ensures Clean(d, Obj(ErrorRecord(cmd, text))) <==> !Dirty(d, text)
  {
    var r := ErrorRecord(cmd, text);
    if Dirty(d, text) {
      assert Holds(r[7].value, text);
      assert Holds(Obj(r), text);
    } else {
      FlatIsClean(d, r);
    }
  }

  lemma LastResortIsValid(d: Detectors)
    requires PlainWords(d)
    ensures Valid(d, LastResort())
  {
    AwIsWord();
    hide WellFormed, Clean, ErrorRecord;
    ErrorRecordWellFormed("aw", LAST_RESORT);
    ErrorRecordClean(d, "aw", LAST_RESORT);
  }

  /** On every JSON object guarded rendering emits a line that passes the validator: the record itself when it is
      valid, an error record otherwise. */
  lemma GuardedAlwaysValid(d: Detectors, rule: Violation -> string, v: Json)
    requires PlainWords(d) && v.Obj?
    ensures var out := RenderGuarded(d, rule, v, false);
            && out.Line? && Valid(d, out.record)
            && (Valid(d, v.fields) ==> out.record == v.fields)
            && (!Valid(d, v.fields) ==> IsStr(Get(out.record, "kind"), "error"))
  {
    hide Violations, Valid, Get, IsStr;
    NoViolationExactly(d, v.fields);
    var substitute := Substitute(d, rule, Violations(d, v.fields), Get(v.fields, "cmd"));
    NoViolationExactly(d, substitute);
    LastResortIsValid(d);
    SubstituteIsError(d, rule, Violations(d, v.fields), Get(v.fields, "cmd"));
  }

  lemma SubstituteIsError(d: Detectors, rule: Violation -> string, errors: seq<Violation>, cmd: Option<Json>)
    ensures IsStr(Get(Substitute(d, rule, errors, cmd), "kind"), "error") && IsStr(Get(LastResort(), "kind"), "error")
  {
    hide Get, CleanCommand, SubstituteText, ErrorRecord;
    ErrorRecordGets("aw", LAST_RESORT);
    ErrorRecordGets(CleanCommand(d, cmd), SubstituteText(rule, errors));
  }

  /** Strict rendering emits exactly the valid records; and even guarded rendering raises on a value that is not an
      object, although its fallback is written to expect one. */
  lemma RaisesExactly(d: Detectors, rule: Violation -> string, v: Json, strict: bool)
    ensures var out := RenderGuarded(d, rule, v, strict);
            && (out.AttributeError? <==> !v.Obj?)
            && (strict && v.Obj? ==> (out == Line(v.fields) <==> Valid(d, v.fields)) && (out.ValueError? <==> !Valid(d, v.fields)))
            && (!strict ==> !out.ValueError?)
  {
    hide Violations, Valid, Substitute;
    if v.Obj? {
      NoViolationExactly(d, v.fields);
    }
  }

  /** The substitute itself is good enough exactly when its text is clean. */
  lemma SubstituteExactly(d: Detectors, rule: Violation -> string, errors: seq<Violation>, cmd: Option<Json>)
    requires PlainWords(d)
    ensures Valid(d, Substitute(d, rule, errors, cmd)) <==> !Dirty(d, SubstituteText(rule, errors))
  {
    var word, text := CleanCommand(d, cmd), SubstituteText(rule, errors);
    AwIsWord();
    if NonBlank(cmd) {
      StripTwice(cmd.value.s);
    }
    hide WellFormed, Clean, ErrorRecord, SubstituteText, Strip;
    ErrorRecordWellFormed(word, text);
    ErrorRecordClean(d, word, text);
  }

  lemma StripTwice(s: string)
    ensures Strip(s) != "" ==> Strip(Strip(s)) == Strip(s)
  {
    var t := Strip(s);
    LStripStarts(s);
    if t != "" {
      assert t[0] == LStrip(s)[0];
      assert LStrip(t) == t;
    }
  }

  lemma {:induction false} LStripStarts(s: string)
    ensures LStrip(s) != "" ==> !IsSpace(LStrip(s)[0])
  {
    if s != "" && IsSpace(s[0]) {
      LStripStarts(s[1..]);
    }
  }
}
