/** `artifact_adopt.apply_adoption` over `artifact_core.atomic_write`: moving an inbox drop into the records
    with a failure possible at every step. */
module Adoption {
  import opened Wrappers
  import opened Text
  import opened Markdown

  type Path = seq<string>

  type Files = map<Path, string>

  // ----- the atomic writer -----

  predicate HasSegments(path: Path, segments: seq<string>) {
    path != [] && (segments <= path || HasSegments(path[1..], segments))
  }

  /** `_is_verbatim_preserved` */
  predicate IsVerbatim(path: Path) {
    || HasSegments(path, [".aw", "records", "research"])
    || HasSegments(path, [".aw", "records", "docs", "research"])
    || HasSegments(path, [".agents", "docs", "research"])
  }

  /** `path.suffix.lower() == ".md"` */
  predicate IsMarkdown(path: Path) {
    path != [] &&
    var name := path[|path| - 1];
    |name| > 3 && name[|name| - 3] == '.' && name[|name| - 2] in {'m', 'M'} && name[|name| - 1] in {'d', 'D'}
  }

  /** What the writer puts in the file. */
  function Stored(path: Path, text: string): string {
    if IsMarkdown(path) && !IsVerbatim(path) then Normalize(text) else text
  }

  /** Where a step fails, and how. */
  datatype Faults = Faults(
    mkdir: bool,
    create: bool,
    /** how much of the text was written before the failure */
    write: Option<nat>,
    chmod: bool,
    replace: bool,
    /** the temporary file could not be removed either */
    tempStays: bool,
    refresh: bool,
    /** the destination could not be removed again */
    rollback: bool,
    remove: bool,
    /** the failure in writing or refreshing is an interrupt, not an error */
    interrupt: bool
  )

  predicate WriteFails(f: Faults) {
    f.mkdir || f.create || f.write.Some? || f.chmod || f.replace
  }

  function Partial(text: string, n: nat): string {
    if n < |text| then text[..n] else text
  }

  /** After a failure inside the write: the temporary file goes, if it can. */
  function Cleanup(fs: Files, temp: Path, f: Faults): seq<Files> {
    if f.tempStays then [] else [fs - {temp}]
  }

  /** The states the disk goes through while a file is written. */
  function WriteSteps(fs: Files, path: Path, stored: string, temp: Path, f: Faults): seq<Files> {
    if f.mkdir || f.create then []
    else
      var created, full := fs[temp := ""], fs[temp := stored];
      if f.write.Some? then
        var part := fs[temp := Partial(stored, f.write.value)];
        [created, part] + Cleanup(part, temp, f)
      else if f.chmod || f.replace then [created, full] + Cleanup(full, temp, f)
      else [created, full, (fs - {temp})[path := stored]]
  }

  // ----- the adoption -----

  datatype Plan = Plan(source: Path, destination: Path, frontMatter: string, provenance: string, body: string)

  /** `AdoptionPlan.content` */
  function Content(plan: Plan): string {
    plan.frontMatter + plan.provenance + plan.body
  }

  datatype Outcome = Refused | WriteFailed | RefreshFailed | Adopted | AdoptedButKept | Raised

  function Last(fs: Files, steps: seq<Files>): Files {
    if steps == [] then fs else steps[|steps| - 1]
  }

  /** Every state of the disk from here on, and how the call ends. `manifests` is what refreshing the index writes. */
  function Steps(fs: Files, plan: Plan, overwrite: bool, temp: Path, manifests: Files, f: Faults): (seq<Files>, Outcome) {
    if plan.destination in fs && !overwrite then ([], Refused)
    else
      var written := WriteSteps(fs, plan.destination, Stored(plan.destination, Content(plan)), temp, f);
      if WriteFails(f) then (written, if f.interrupt then Raised else WriteFailed)
      else
        var refreshed := Last(fs, written) + manifests;
        if f.refresh && f.interrupt then (written + [refreshed], Raised)
        else if f.refresh then
          (written + [refreshed] + (if f.rollback then [] else [refreshed - {plan.destination}]), RefreshFailed)
        else if f.remove then (written + [refreshed], AdoptedButKept)
        else (written + [refreshed, refreshed - {plan.source}], Adopted)
  }

  class Disk {
    var files: Files
    /** every state since the disk was opened */
    var history: seq<Files>

    constructor (start: Files)
      ensures files == start && history == [start]
    {
      files, history := start, [start];
    }

    method Set(now: Files)
      modifies this
      ensures files == now && history == old(history) + [now]
    {
      files := now;
      history := history + [now];
    }

    method AtomicWrite(path: Path, text: string, temp: Path, f: Faults) returns (ok: bool)
      modifies this
      ensures ok == !WriteFails(f)
      ensures history == old(history) + WriteSteps(old(files), path, Stored(path, text), temp, f)
      ensures files == Last(old(files), WriteSteps(old(files), path, Stored(path, text), temp, f))
    {
      hide Stored;
      var out := Stored(path, text);
      ok := false;
      if f.mkdir || f.create {
        return;
      }
      ghost var before := files;
      Set(files[temp := ""]);
      if f.write.Some? {
        Set(files[temp := Partial(out, f.write.value)]);
        assert files == before[temp := Partial(out, f.write.value)];
        if !f.tempStays {
          Set(files - {temp});
        }
        return;
      }
      Set(files[temp := out]);
      assert files == before[temp := out];
      if f.chmod || f.replace {
        if !f.tempStays {
          Set(files - {temp});
        }
        return;
      }
      Set((files - {temp})[path := out]);
      assert files == (before - {temp})[path := out];
      ok := true;
    }

    method ApplyAdoption(plan: Plan, overwrite: bool, temp: Path, manifests: Files, f: Faults) returns (outcome: Outcome)
      modifies this
      ensures var r := Steps(old(files), plan, overwrite, temp, manifests, f);
              history == old(history) + r.0 && files == Last(old(files), r.0) && outcome == r.1
    {
      hide WriteSteps, Stored;
      if plan.destination in files && !overwrite {
        return Refused;
      }
      var written := AtomicWrite(plan.destination, Content(plan), temp, f);
      if !written {
        return if f.interrupt then Raised else WriteFailed;
      }
      Set(files + manifests);
      if f.refresh {
        if f.interrupt {
          return Raised;
        }
        if !f.rollback {
          Set(files - {plan.destination});
        }
        return RefreshFailed;
      }
      if f.remove {
        return AdoptedButKept;
      }
      Set(files - {plan.source});
      return Adopted;
    }
  }

  // ----- what every step keeps -----

  /** What planning guarantees: the drop is an inbox file, the destination and the manifests are not, and the
      temporary name is new. */
  ghost predicate Planned(fs: Files, plan: Plan, temp: Path, manifests: Files) {
    && plan.source in fs && plan.source != plan.destination
    && temp !in fs && temp != plan.source && temp != plan.destination
    && plan.source !in manifests && plan.destination !in manifests && temp !in manifests
  }

  /** The drop is where it was, or the destination is complete. */
  predicate Survives(start: Files, now: Files, plan: Plan)
    requires plan.source in start
  {
    || Intact(start, now, plan)
    || (plan.destination in now && now[plan.destination] == Stored(plan.destination, Content(plan)))
  }

  predicate Intact(start: Files, now: Files, plan: Plan)
    requires plan.source in start
  {
    plan.source in now && now[plan.source] == start[plan.source]
  }

  /** Nothing but the drop, the destination, the temporary file and the manifests is touched. */
  ghost predicate Untouched(start: Files, now: Files, plan: Plan, temp: Path, manifests: Files) {
    forall p | p !in manifests && p != plan.source && p != plan.destination && p != temp ::
      (p in now <==> p in start) && (p in start ==> now[p] == start[p])
  }

  lemma WritingKeepsTheDrop(fs: Files, plan: Plan, stored: string, temp: Path, manifests: Files, f: Faults)
    requires Planned(fs, plan, temp, manifests)
    ensures var steps := WriteSteps(fs, plan.destination, stored, temp, f);
            && (forall now | now in steps :: Intact(fs, now, plan) && Untouched(fs, now, plan, temp, manifests))
            && (!WriteFails(f) ==> steps != [] && Last(fs, steps) == fs[plan.destination := stored])
            && (WriteFails(f) && (f.mkdir || f.create || !f.tempStays) ==> Last(fs, steps) == fs)
            && (WriteFails(f) && !(f.mkdir || f.create || !f.tempStays) ==> temp in Last(fs, steps))
  {
    if !WriteFails(f) {
      assert fs - {temp} == fs;
    } else if f.write.Some? {
      assert fs[temp := Partial(stored, f.write.value)] - {temp} == fs;
    } else {
      assert fs[temp := stored] - {temp} == fs;
    }
  }

  /** At every step boundary, whatever fails and wherever the process is cut, the drop survives: untouched in the
      inbox, or complete at its destination. It leaves the inbox only in the last step of a full adoption. */
  lemma EveryStepKeepsTheDrop(fs: Files, plan: Plan, overwrite: bool, temp: Path, manifests: Files, f: Faults)
    requires Planned(fs, plan, temp, manifests)
    ensures var r := Steps(fs, plan, overwrite, temp, manifests, f);
            && (forall now | now in r.0 :: Survives(fs, now, plan) && Untouched(fs, now, plan, temp, manifests))
            && (r.1 != Adopted ==> forall now | now in r.0 :: Intact(fs, now, plan))
            && (r.1 == Adopted ==>
                  && r.0 != [] && (forall i | 0 <= i < |r.0| - 1 :: Intact(fs, r.0[i], plan))
                  && plan.source !in Last(fs, r.0)
                  && plan.destination in Last(fs, r.0)
                  && Last(fs, r.0)[plan.destination] == Stored(plan.destination, Content(plan)))
  {
    hide WriteSteps, Stored;
    var stored := Stored(plan.destination, Content(plan));
    WritingKeepsTheDrop(fs, plan, stored, temp, manifests, f);
  }

  // ----- when an error leaves everything as it was -----

  /** The disk but for the generated manifests. */
  function Kept(fs: Files, manifests: Files): Files {
    fs - manifests.Keys
  }

  predicate Restores(fs: Files, plan: Plan, f: Faults, outcome: Outcome) {
    match outcome
    case Refused => true
    case WriteFailed => f.mkdir || f.create || !f.tempStays
    case RefreshFailed =>
      if plan.destination in fs then f.rollback && fs[plan.destination] == Stored(plan.destination, Content(plan))
      else !f.rollback
    case _ => false
  }

  /** An error before the removal step puts the original files back exactly when the temporary file could be
      removed and, after a failed refresh, the destination was new and could be removed. A destination that was
      there, and overwritten, is lost: it comes back only if it held the same text and could not be removed. */
  lemma ErrorsRestoreExactly(fs: Files, plan: Plan, overwrite: bool, temp: Path, manifests: Files, f: Faults)
    requires Planned(fs, plan, temp, manifests)
    ensures var r := Steps(fs, plan, overwrite, temp, manifests, f);
            r.1 in {Refused, WriteFailed, RefreshFailed} ==>
              (Kept(Last(fs, r.0), manifests) == Kept(fs, manifests) <==> Restores(fs, plan, f, r.1))
  {
    hide WriteSteps, Stored;
    var stored, d := Stored(plan.destination, Content(plan)), plan.destination;
    WritingKeepsTheDrop(fs, plan, stored, temp, manifests, f);
    var r := Steps(fs, plan, overwrite, temp, manifests, f);
    var end := Kept(Last(fs, r.0), manifests);
    if r.1 == WriteFailed {
      if !Restores(fs, plan, f, r.1) {
        assert temp in end && temp !in Kept(fs, manifests);
      }
    } else if r.1 == RefreshFailed {
      var written := fs[d := stored];
      if f.rollback {
        assert Last(fs, r.0) == written + manifests;
        assert end[d] == stored && d in end;
        if Restores(fs, plan, f, r.1) {
          assert end == Kept(fs, manifests);
        } else {
          assert d !in fs || Kept(fs, manifests)[d] != stored;
        }
      } else {
        assert Last(fs, r.0) == (written + manifests) - {d};
        assert d !in end;
        if d !in fs {
          assert end == Kept(fs, manifests);
        } else {
          assert d in Kept(fs, manifests);
        }
      }
    }
  }

  /** So without an overwrite, and when what was written can be removed again, every such error restores the disk. */
  lemma NewDestinationIsRolledBack(fs: Files, plan: Plan, temp: Path, manifests: Files, f: Faults)
    requires Planned(fs, plan, temp, manifests) && !f.tempStays && !f.rollback
    ensures var r := Steps(fs, plan, false, temp, manifests, f);
            r.1 in {Refused, WriteFailed, RefreshFailed} ==> Kept(Last(fs, r.0), manifests) == Kept(fs, manifests)
  {
    ErrorsRestoreExactly(fs, plan, false, temp, manifests, f);
  }

  // ----- the body -----

  /** In a verbatim-preserved tree the destination ends with the exact body. */
  lemma VerbatimKeepsBody(plan: Plan)
    requires IsVerbatim(plan.destination)
    ensures EndsWith(Stored(plan.destination, Content(plan)), plan.body)
  {
    var content := Content(plan);
    assert content[|content| - |plan.body|..] == plan.body;
  }

  /** Reading a file as text turns every `\r\n` and `\r` into `\n`. */
  function ReadText(raw: string): string
    decreases |raw|
  {
    if raw == "" then ""
    else if raw[0] == '\r' then "\n" + ReadText(if |raw| > 1 && raw[1] == '\n' then raw[2..] else raw[1..])
    else [raw[0]] + ReadText(raw[1..])
  }

  lemma {:induction false} ReadTextHasNoCR(raw: string)
    ensures '\r' !in ReadText(raw)
    ensures '\r' !in raw ==> ReadText(raw) == raw
    decreases |raw|
  {
    if raw != "" {
      if raw[0] == '\r' {
        ReadTextHasNoCR(if |raw| > 1 && raw[1] == '\n' then raw[2..] else raw[1..]);
      } else {
        ReadTextHasNoCR(raw[1..]);
        assert raw == [raw[0]] + raw[1..];
      }
    }
  }

  /** The drop itself is in the destination, byte for byte, exactly when it holds no carriage return. */
  lemma DropIsKeptExactly(plan: Plan, raw: string)
    requires IsVerbatim(plan.destination) && plan.body == ReadText(raw) && '\r' !in plan.frontMatter + plan.provenance
    ensures EndsWith(Stored(plan.destination, Content(plan)), raw) <==> '\r' !in raw
  {
    ReadTextHasNoCR(raw);
    var content := Content(plan);
    if '\r' !in raw {
      VerbatimKeepsBody(plan);
    } else {
      forall c | c in content
        ensures c != '\r'
      {
        assert c in plan.frontMatter + plan.provenance || c in plan.body;
      }
      var i :| 0 <= i < |raw| && raw[i] == '\r';
      if |raw| <= |content| {
        assert content[|content| - |raw|..][i] in content;
      }
    }
  }
}
