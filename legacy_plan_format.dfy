/** The course-plan file as the older helper script writes it: faculties in
    a given order, looked up in the plan tree; no newline removal, no
    padding, a dict slot writes one elective per key, and an elective without
    options leaves its bracket open. */
module LegacyPlanFormat {
  import opened Wrappers
  import opened Text
  import opened OrderedDict
  import opened CoursePlanModel
  import opened PlanFormat

  type LegacyIterations = ODict<string, Plan>
  type LegacyPrograms = ODict<string, LegacyIterations>
  type LegacyPlans = ODict<string, LegacyPrograms>

  /** `[title*(a|b|...)]`, but only `[title*(` when there is no option. */
  function LegacyElectiveText(title: string, options: seq<string>): string {
    "[" + title + "*(" + (if |options| == 0 then "" else Join(options, "|") + ")]")
  }

  /** `for title in course.keys()`: a dict without a key writes nothing. */
  function LegacySlotText(slot: Slot): string {
    match slot
    case Code(code) => code
    case Elective(title, options) => LegacyElectiveText(title, options)
    case EmptyDict => ""
  }

  function LegacyTexts(semester: Semester): (r: seq<string>)
    ensures |r| == |semester|
  {
    seq(|semester|, j requires 0 <= j < |semester| => LegacySlotText(semester[j]))
  }

  function LegacySemesterLine(semester: Semester): string {
    Join(LegacyTexts(semester), "=")
  }

  function LegacySemesterPiece(semester: Semester): Result<seq<string>> {
    Ok([LegacySemesterLine(semester)])
  }

  function LegacyIterationBlock(entry: (string, Plan)): Result<seq<string>> {
    Then(Ok(["### " + entry.0]), FlatMap(entry.1, LegacySemesterPiece))
  }

  function LegacyProgramBlock(entry: (string, LegacyIterations)): Result<seq<string>> {
    Then(Ok(["## " + entry.0]), FlatMap(entry.1, LegacyIterationBlock))
  }

  /** A faculty of the given order with its entry in the tree, if any. */
  function LegacyFacultyBlock(entry: (string, Option<LegacyPrograms>)): Result<seq<string>> {
    match entry.1
    case None => Err("KeyError")
    case Some(programs) => Then(Ok(["# " + entry.0]), FlatMap(programs, LegacyProgramBlock))
  }

  function Lookups(faculties: LegacyPlans, order: seq<string>): (r: seq<(string, Option<LegacyPrograms>)>)
    ensures |r| == |order|
  {
    seq(|order|, i requires 0 <= i < |order| => (order[i], Get(faculties, order[i])))
  }

  /** The lines of the whole file, faculty by faculty in `order`. */
  function LegacyCoursePlanLines(faculties: LegacyPlans, order: seq<string>): Result<seq<string>> {
    FlatMap(Lookups(faculties, order), LegacyFacultyBlock)
  }

  // ------------------------------------------------------------- the writer

  function LegacyOptionsTail(k: nat, n: nat): string {
    if k == 0 then "" else if k < n then "|" else ")]"
  }

  lemma LegacyOptionStep(head: string, options: seq<string>, k: nat, text: string)
    requires k < |options| && text == head + Join(options[..k], "|") + LegacyOptionsTail(k, |options|)
    ensures text + options[k] + (if k != |options| - 1 then "|" else ")]")
         == head + Join(options[..k + 1], "|") + LegacyOptionsTail(k + 1, |options|)
  {
    JoinStep(options, k, "|");
  }

  /** The options loop of the older `save_course_plans`. */
  method LegacyElectiveTextOf(title: string, options: seq<string>) returns (text: string)
    ensures text == LegacyElectiveText(title, options)
  {
    var head := "[" + title + "*(";
    text := head;
    var k := 0;
    while k < |options|
      invariant 0 <= k <= |options|
      invariant text == head + Join(options[..k], "|") + LegacyOptionsTail(k, |options|)
    {
      LegacyOptionStep(head, options, k, text);
      text := text + options[k];
      if k != |options| - 1 {
        text := text + "|";
      } else {
        text := text + ")]";
      }
      k := k + 1;
    }
    assert options[..k] == options;
  }

  lemma LegacySlotStep(semester: Semester, j: nat)
    requires j < |semester|
    ensures LegacyTexts(semester[..j + 1]) == LegacyTexts(semester[..j]) + [LegacySlotText(semester[j])]
    ensures Join(LegacyTexts(semester[..j + 1]), "=")
         == if j == 0 then LegacySlotText(semester[j]) else Join(LegacyTexts(semester[..j]), "=") + "=" + LegacySlotText(semester[j])
  {
    assert LegacyTexts(semester[..j + 1]) == LegacyTexts(semester[..j]) + [LegacySlotText(semester[j])];
    JoinAppend(LegacyTexts(semester[..j]), LegacySlotText(semester[j]), "=");
  }

  /** The slots loop of the older `save_course_plans`. */
  method LegacySemesterLineOf(semester: Semester) returns (line: string)
    ensures line == LegacySemesterLine(semester)
  {
    line := "";
    var j := 0;
    while j < |semester|
      invariant 0 <= j <= |semester|
      invariant line == Join(LegacyTexts(semester[..j]), "=") + (if 0 < j < |semester| then "=" else "")
    {
      var text := "";
      match semester[j] {
        case Code(code) =>
          text := code;
        case Elective(title, options) =>
          text := LegacyElectiveTextOf(title, options);
        case EmptyDict =>
      }
      LegacySlotStep(semester, j);
      line := line + text;
      if j != |semester| - 1 {
        line := line + "=";
      }
      j := j + 1;
    }
    assert semester[..j] == semester;
    assert line == Join(LegacyTexts(semester), "=");
  }

  method LegacyAppendIteration(lines: seq<string>, entry: (string, Plan)) returns (r: seq<string>)
    ensures Extends(Ok(r), lines, LegacyIterationBlock(entry))
  {
    var semesters := entry.1;
    var start := lines + ["### " + entry.0 + "\n"];
    var out := start;
    ExtendsStart(semesters, LegacySemesterPiece, start);
    var i := 0;
    while i < |semesters|
      invariant 0 <= i <= |semesters|
      invariant Extends(Ok(out), start, FlatMap(semesters[..i], LegacySemesterPiece))
    {
      var line := LegacySemesterLineOf(semesters[i]);
      LegacySemesterEntry(out, line);
      ExtendsStep(semesters, LegacySemesterPiece, i, start, out, Ok(out + [line + "\n"]));
      out := out + [line + "\n"];
      i := i + 1;
    }
    ExtendsEnd(semesters, LegacySemesterPiece, start, out);
    r := out;
    ExtendsHeader(lines, "### " + entry.0, Ok(r), FlatMap(semesters, LegacySemesterPiece));
  }

  lemma LegacySemesterEntry(out: seq<string>, line: string)
    ensures Concat(out + [line + "\n"]) == Concat(out) + Unlines([line])
  {
    ConcatAppend(out, line + "\n");
    assert Unlines([line]) == line + "\n" + Unlines([]);
  }

  method LegacyAppendProgram(lines: seq<string>, entry: (string, LegacyIterations)) returns (r: seq<string>)
    ensures Extends(Ok(r), lines, LegacyProgramBlock(entry))
  {
    var iterations := entry.1;
    var start := lines + ["## " + entry.0 + "\n"];
    var out := start;
    ExtendsStart(iterations, LegacyIterationBlock, start);
    var i := 0;
    while i < |iterations|
      invariant 0 <= i <= |iterations|
      invariant Extends(Ok(out), start, FlatMap(iterations[..i], LegacyIterationBlock))
    {
      var next := LegacyAppendIteration(out, iterations[i]);
      ExtendsStep(iterations, LegacyIterationBlock, i, start, out, Ok(next));
      out := next;
      i := i + 1;
    }
    ExtendsEnd(iterations, LegacyIterationBlock, start, out);
    r := out;
    ExtendsHeader(lines, "## " + entry.0, Ok(r), FlatMap(iterations, LegacyIterationBlock));
  }

  method LegacyAppendFaculty(lines: seq<string>, name: string, programs: LegacyPrograms) returns (r: seq<string>)
    ensures Extends(Ok(r), lines, LegacyFacultyBlock((name, Some(programs))))
  {
    var start := lines + ["# " + name + "\n"];
    var out := start;
    ExtendsStart(programs, LegacyProgramBlock, start);
    var i := 0;
    while i < |programs|
      invariant 0 <= i <= |programs|
      invariant Extends(Ok(out), start, FlatMap(programs[..i], LegacyProgramBlock))
    {
      var next := LegacyAppendProgram(out, programs[i]);
      ExtendsStep(programs, LegacyProgramBlock, i, start, out, Ok(next));
      out := next;
      i := i + 1;
    }
    ExtendsEnd(programs, LegacyProgramBlock, start, out);
    r := out;
    ExtendsHeader(lines, "# " + name, Ok(r), FlatMap(programs, LegacyProgramBlock));
  }

  /** The older `save_course_plans(faculties, faculty_order)`: the entries
      written, or the `KeyError` of a faculty of the order missing from the
      tree. */
  method LegacySaveCoursePlans(faculties: LegacyPlans, order: seq<string>) returns (r: Result<seq<string>>)
    ensures Extends(r, [], LegacyCoursePlanLines(faculties, order))
  {
    ghost var entries := Lookups(faculties, order);
    var out: seq<string> := [];
    ExtendsStart(entries, LegacyFacultyBlock, []);
    var i := 0;
    while i < |order|
      invariant 0 <= i <= |order|
      invariant Extends(Ok(out), [], FlatMap(entries[..i], LegacyFacultyBlock))
    {
      var programs := Get(faculties, order[i]);
      assert entries[i] == (order[i], programs);
      if programs.None? {
        ExtendsStep(entries, LegacyFacultyBlock, i, [], out, Err("KeyError"));
        return Err("KeyError");
      }
      var next := LegacyAppendFaculty(out, order[i], programs.value);
      ExtendsStep(entries, LegacyFacultyBlock, i, [], out, Ok(next));
      out := next;
      i := i + 1;
    }
    ExtendsEnd(entries, LegacyFacultyBlock, [], out);
    r := Ok(out);
  }

  // ------------------------------------------------------------- properties

  lemma LegacyProgramsComplete(programs: LegacyPrograms)
    ensures FlatMap(programs, LegacyProgramBlock).Ok?
  {
    forall i | 0 <= i < |programs|
      ensures LegacyProgramBlock(programs[i]).Ok?
    {
      var iterations := programs[i].1;
      forall k | 0 <= k < |iterations|
        ensures LegacyIterationBlock(iterations[k]).Ok?
      {
        FlatMapOk(iterations[k].1, LegacySemesterPiece);
      }
      FlatMapOk(iterations, LegacyIterationBlock);
    }
    FlatMapOk(programs, LegacyProgramBlock);
  }

  /** The older writer completes exactly when every faculty of the order is
      a key of the tree; otherwise it raises `KeyError`. */
  lemma LegacyMissingFaculty(faculties: LegacyPlans, order: seq<string>)
    ensures LegacyCoursePlanLines(faculties, order).Ok? <==> forall i :: 0 <= i < |order| ==> order[i] in Keys(faculties)
    ensures LegacyCoursePlanLines(faculties, order).Err? ==> LegacyCoursePlanLines(faculties, order).error == "KeyError"
  {
    var entries := Lookups(faculties, order);
    forall i | 0 <= i < |order|
      ensures LegacyFacultyBlock(entries[i]).Ok? <==> order[i] in Keys(faculties)
      ensures LegacyFacultyBlock(entries[i]).Err? ==> LegacyFacultyBlock(entries[i]).error == "KeyError"
    {
      if entries[i].1.Some? {
        LegacyProgramsComplete(entries[i].1.value);
      }
    }
    FlatMapOk(entries, LegacyFacultyBlock);
    FlatMapError(entries, LegacyFacultyBlock, "KeyError");
  }

  /** An elective without options: the older writer leaves the bracket
      open, while every elective of the current writer is closed. */
  lemma UnclosedElective(title: string)
    requires ']' !in title && '\n' !in title
    ensures LegacyElectiveText(title, []) == "[" + title + "*("
    ensures ']' !in LegacyElectiveText(title, [])
    ensures ElectiveText(title, []) == LegacyElectiveText(title, []) + ")]"
  {
    RemoveAbsentChar(title, '\n');
    assert CleanOptions([]) == [];
  }

  /** A slot both writers write the same way. */
  predicate Agreeing(slot: Slot) {
    match slot
    case Code(_) => true
    case Elective(title, options) =>
      |options| > 0 && '\n' !in title && forall k :: 0 <= k < |options| ==> '\n' !in options[k]
    case EmptyDict => false
  }

  /** On slots that hold no newline, no option-less elective and no dict
      without a key, the older and the current writer write the same line. */
  lemma LegacyAgrees(semester: Semester)
    requires forall j :: 0 <= j < |semester| ==> Agreeing(semester[j])
    ensures SemesterLine(semester) == Ok(LegacySemesterLine(semester))
  {
    SemesterLineRaises(semester);
    forall j | 0 <= j < |semester|
      ensures SlotTextIntended(semester[j]) == LegacySlotText(semester[j])
    {
      if semester[j].Elective? {
        var title, options := semester[j].title, semester[j].options;
        RemoveAbsentChar(title, '\n');
        forall k | 0 <= k < |options|
          ensures CleanOptions(options)[k] == options[k]
        {
          RemoveAbsentChar(options[k], '\n');
        }
        assert CleanOptions(options) == options;
      }
    }
    assert IntendedTexts(semester) == LegacyTexts(semester);
  }
}
