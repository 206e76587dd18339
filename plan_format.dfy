/** The course-plan text file written by `save_course_plans`: one `# faculty`,
    `## program type` and `### iteration` header line per entry of the plan
    tree, then one line per semester whose slots are joined by `=`, an
    elective written `[title*(a|b|...)]`, and blank lines that bring every
    iteration to eight semester lines. */
module PlanFormat {
  import opened Wrappers
  import opened Text
  import opened OrderedDict
  import opened CoursePlanModel

  // ------------------------------------------------------------- combinators

  /** The lines of `a` followed by those of `b`; the first error wins. */
  function Then(a: Result<seq<string>>, b: Result<seq<string>>): Result<seq<string>> {
    if a.Err? then a else if b.Err? then b else Ok(a.value + b.value)
  }

  /** The lines `f` gives for each element in order, up to the first error:
      a Python loop that appends to a list of lines and may raise. */
  function FlatMap<X>(xs: seq<X>, f: X -> Result<seq<string>>): Result<seq<string>> {
    if xs == [] then Ok([]) else Then(FlatMap(xs[..|xs| - 1], f), f(xs[|xs| - 1]))
  }

  /** `r`, the list of entries built on top of `lines`, carries the text of
      `spec`'s lines after the text of `lines`; when `spec` is an error, `r`
      is that same error. The entries themselves may hold several lines each
      (the padding entry does), so only their text is compared. */
  predicate Extends(r: Result<seq<string>>, lines: seq<string>, spec: Result<seq<string>>) {
    match spec
    case Err(e) => r == Err(e)
    case Ok(ls) => r.Ok? && Concat(r.value) == Concat(lines) + Unlines(ls)
  }

  /** No line holds a newline. */
  predicate LinesFree(ls: seq<string>) {
    forall i :: 0 <= i < |ls| ==> '\n' !in ls[i]
  }

  lemma FlatMapStep<X>(xs: seq<X>, f: X -> Result<seq<string>>, i: nat)
    requires i < |xs|
    ensures FlatMap(xs[..i + 1], f) == Then(FlatMap(xs[..i], f), f(xs[i]))
  {
    assert xs[..i + 1][..i] == xs[..i];
  }

  /** Once an element raises, the loop raises that error. */
  lemma {:induction false} FlatMapErr<X>(xs: seq<X>, f: X -> Result<seq<string>>, i: nat)
    requires i <= |xs| && FlatMap(xs[..i], f).Err?
    ensures FlatMap(xs, f) == FlatMap(xs[..i], f)
    decreases |xs| - i
  {
    if i == |xs| {
      assert xs[..i] == xs;
    } else {
      FlatMapStep(xs, f, i);
      FlatMapErr(xs, f, i + 1);
    }
  }

  /** Newline-free lines from every element make newline-free lines. */
  lemma {:induction false} FlatMapFree<X>(xs: seq<X>, f: X -> Result<seq<string>>)
    requires forall i :: 0 <= i < |xs| ==> f(xs[i]).Ok? ==> LinesFree(f(xs[i]).value)
    ensures FlatMap(xs, f).Ok? ==> LinesFree(FlatMap(xs, f).value)
  {
    if xs != [] {
      FlatMapFree(xs[..|xs| - 1], f);
    }
  }

  /** A loop completes exactly when every element's lines do. */
  lemma {:induction false} FlatMapOk<X>(xs: seq<X>, f: X -> Result<seq<string>>)
    ensures FlatMap(xs, f).Ok? <==> forall i :: 0 <= i < |xs| ==> f(xs[i]).Ok?
  {
    if xs != [] {
      var init := xs[..|xs| - 1];
      FlatMapOk(init, f);
      assert forall i :: 0 <= i < |init| ==> init[i] == xs[i];
    }
  }

  /** A loop raises only errors its elements raise. */
  lemma {:induction false} FlatMapError<X>(xs: seq<X>, f: X -> Result<seq<string>>, e: string)
    requires forall i :: 0 <= i < |xs| ==> f(xs[i]).Err? ==> f(xs[i]).error == e
    ensures FlatMap(xs, f).Err? ==> FlatMap(xs, f).error == e
  {
    if xs != [] {
      FlatMapError(xs[..|xs| - 1], f, e);
    }
  }

  lemma FlatMapOne<X>(x: X, f: X -> Result<seq<string>>)
    ensures FlatMap([x], f) == Then(Ok([]), f(x))
  {
    assert [x][..0] == [];
  }

  lemma ExtendsStart<X>(xs: seq<X>, f: X -> Result<seq<string>>, lines: seq<string>)
    ensures Extends(Ok(lines), lines, FlatMap(xs[..0], f))
  {
    assert xs[..0] == [];
  }

  /** One pass of a loop: when element `i`'s entries extend `out` to `r`,
      the entries so far are those of `xs[..i + 1]`, and when element `i`
      raised, the whole loop raises the same error. */
  lemma ExtendsStep<X>(xs: seq<X>, f: X -> Result<seq<string>>, i: nat,
                       lines: seq<string>, out: seq<string>, r: Result<seq<string>>)
    requires i < |xs|
    requires Extends(Ok(out), lines, FlatMap(xs[..i], f))
    requires Extends(r, out, f(xs[i]))
    ensures Extends(r, lines, FlatMap(xs[..i + 1], f))
    ensures r.Err? ==> Extends(r, lines, FlatMap(xs, f))
  {
    FlatMapStep(xs, f, i);
    if f(xs[i]).Ok? {
      ExtendsThen(lines, out, r, FlatMap(xs[..i], f).value, f(xs[i]).value);
    } else {
      FlatMapErr(xs, f, i + 1);
    }
  }

  lemma ExtendsThen(lines: seq<string>, out: seq<string>, r: Result<seq<string>>, done: seq<string>, more: seq<string>)
    requires Concat(out) == Concat(lines) + Unlines(done)
    requires r.Ok? && Concat(r.value) == Concat(out) + Unlines(more)
    ensures Extends(r, lines, Then(Ok(done), Ok(more)))
  {
    UnlinesAppend(done, more);
    StringAssoc(Concat(lines), Unlines(done), Unlines(more), Concat(out), Concat(r.value));
  }

  lemma StringAssoc(a: string, b: string, c: string, ab: string, abc: string)
    requires ab == a + b && abc == ab + c
    ensures abc == a + (b + c)
  {
  }

  lemma ExtendsEnd<X>(xs: seq<X>, f: X -> Result<seq<string>>, lines: seq<string>, out: seq<string>)
    requires Extends(Ok(out), lines, FlatMap(xs[..|xs|], f))
    ensures Extends(Ok(out), lines, FlatMap(xs, f))
  {
    assert xs[..|xs|] == xs;
  }

  /** A header entry appended before a block's own entries. */
  lemma ExtendsHeader(lines: seq<string>, header: string, r: Result<seq<string>>, rest: Result<seq<string>>)
    requires Extends(r, lines + [header + "\n"], rest)
    ensures Extends(r, lines, Then(Ok([header]), rest))
  {
    ConcatAppend(lines, header + "\n");
    if rest.Ok? {
      assert ([header] + rest.value)[1..] == rest.value;
    }
  }

  // ------------------------------------------------------------- the format

  /** `s.replace("\n", "")`. */
  function NoNewlines(s: string): (r: string)
    ensures '\n' !in r
    ensures forall c :: c in r ==> c in s
  {
    RemoveCharGone(s, '\n');
    ReplaceAll(s, "\n", "")
  }

  /** The options of an elective, each with its newlines removed. */
  function CleanOptions(options: seq<string>): (r: seq<string>)
    ensures |r| == |options|
    ensures forall i :: 0 <= i < |r| ==> '\n' !in r[i]
  {
    seq(|options|, i requires 0 <= i < |options| => NoNewlines(options[i]))
  }

  /** `[title*(a|b|...)]`, newlines removed from the title and the options;
      `[title*()]` for an elective without options. */
  function ElectiveText(title: string, options: seq<string>): string {
    "[" + NoNewlines(title) + "*(" + Join(CleanOptions(options), "|") + ")]"
  }

  /** Every elective is written inside a closed bracket: its text starts
      with `[` and ends with `)]`, with or without options. */
  lemma ElectiveClosed(title: string, options: seq<string>)
    ensures |ElectiveText(title, options)| >= 4
    ensures ElectiveText(title, options)[0] == '['
    ensures ElectiveText(title, options)[|ElectiveText(title, options)| - 2..] == ")]"
  {
    var t := ElectiveText(title, options);
    var body := NoNewlines(title) + "*(" + Join(CleanOptions(options), "|");
    assert t == "[" + body + ")]";
  }

  /** The text of one slot; `list(course.keys())[0]` raises on a dict
      without a key. */
  function SlotText(slot: Slot): Result<string> {
    match slot
    case Code(code) => Ok(code)
    case Elective(title, options) => Ok(ElectiveText(title, options))
    case EmptyDict => Err("IndexError")
  }

  function SlotPiece(slot: Slot): Result<seq<string>> {
    match SlotText(slot)
    case Err(e) => Err(e)
    case Ok(t) => Ok([t])
  }

  /** A semester's line: the texts of its slots joined by `=`. */
  function SemesterLine(semester: Semester): Result<string> {
    match FlatMap(semester, SlotPiece)
    case Err(e) => Err(e)
    case Ok(texts) => Ok(Join(texts, "="))
  }

  function SemesterPiece(semester: Semester): Result<seq<string>> {
    match SemesterLine(semester)
    case Err(e) => Err(e)
    case Ok(line) => Ok([line])
  }

  /** The blank lines after an iteration of `k` semesters. */
  function Padding(k: nat): nat {
    if k < 8 then 8 - k else 0
  }

  /** The lines of one iteration's plan; an iteration whose page was never
      read is `None`, and `enumerate(None)` raises. */
  function IterationLines(content: Option<Plan>): Result<seq<string>> {
    match content
    case None => Err("TypeError")
    case Some(plan) => Then(FlatMap(plan, SemesterPiece), Ok(Blanks(Padding(|plan|))))
  }

  function IterationBlock(entry: (string, Option<Plan>)): Result<seq<string>> {
    Then(Ok(["### " + entry.0]), IterationLines(entry.1))
  }

  function ProgramBlock(entry: (string, Iterations)): Result<seq<string>> {
    Then(Ok(["## " + entry.0]), FlatMap(entry.1, IterationBlock))
  }

  function FacultyBlock(entry: (string, ODict<string, Iterations>)): Result<seq<string>> {
    Then(Ok(["# " + entry.0]), FlatMap(entry.1, ProgramBlock))
  }

  /** The lines of the whole course-plan file, in the tree's insertion order. */
  function CoursePlanLines(plans: FacultyPlans): Result<seq<string>> {
    FlatMap(plans, FacultyBlock)
  }

  // ------------------------------------------------------------- the writer

  /** One more slot text on a semester's line. */
  lemma SlotTextStep(semester: Semester, j: nat, text: string)
    requires j < |semester| && FlatMap(semester[..j], SlotPiece).Ok?
    requires |FlatMap(semester[..j], SlotPiece).value| == j
    requires SlotText(semester[j]) == Ok(text)
    ensures FlatMap(semester[..j + 1], SlotPiece) == Ok(FlatMap(semester[..j], SlotPiece).value + [text])
    ensures Join(FlatMap(semester[..j + 1], SlotPiece).value, "=")
         == if j == 0 then text else Join(FlatMap(semester[..j], SlotPiece).value, "=") + "=" + text
  {
    FlatMapStep(semester, SlotPiece, j);
    JoinAppend(FlatMap(semester[..j], SlotPiece).value, text, "=");
  }

  /** A dict without a key makes the whole semester raise. */
  lemma SlotTextRaises(semester: Semester, j: nat)
    requires j < |semester| && FlatMap(semester[..j], SlotPiece).Ok? && semester[j] == EmptyDict
    ensures SemesterLine(semester) == Err("IndexError")
  {
    FlatMapStep(semester, SlotPiece, j);
    FlatMapErr(semester, SlotPiece, j + 1);
  }

  /** What follows the first `k` of `n` options on the line: `|` between
      options, `)]` after the last. */
  function OptionsTail(k: nat, n: nat): string {
    if k == 0 then "" else if k < n then "|" else ")]"
  }

  lemma OptionStep(head: string, clean: seq<string>, k: nat, text: string)
    requires k < |clean| && text == head + Join(clean[..k], "|") + OptionsTail(k, |clean|)
    ensures text + clean[k] + (if k != |clean| - 1 then "|" else ")]")
         == head + Join(clean[..k + 1], "|") + OptionsTail(k + 1, |clean|)
  {
    JoinStep(clean, k, "|");
  }

  /** The options loop of `save_course_plans`: the text of an elective. */
  method ElectiveTextOf(title: string, options: seq<string>) returns (text: string)
    ensures text == ElectiveText(title, options)
  {
    var head := "[" + NoNewlines(title) + "*(";
    ghost var clean := CleanOptions(options);
    if |options| <= 0 {
      assert clean == [];
      return head + ")]";
    }
    text := head;
    var k := 0;
    while k < |options|
      invariant 0 <= k <= |options|
      invariant text == head + Join(clean[..k], "|") + OptionsTail(k, |options|)
    {
      assert NoNewlines(options[k]) == clean[k];
      OptionStep(head, clean, k, text);
      text := text + NoNewlines(options[k]);
      if k != |options| - 1 {
        text := text + "|";
      } else {
        text := text + ")]";
      }
      k := k + 1;
    }
    assert clean[..k] == clean;
  }

  /** The slots loop of `save_course_plans`: one semester's line. */
  method SemesterLineOf(semester: Semester) returns (r: Result<string>)
    ensures r == SemesterLine(semester)
  {
    var line := "";
    var j := 0;
    assert semester[..0] == [];
    while j < |semester|
      invariant 0 <= j <= |semester|
      invariant FlatMap(semester[..j], SlotPiece).Ok? && |FlatMap(semester[..j], SlotPiece).value| == j
      invariant line == Join(FlatMap(semester[..j], SlotPiece).value, "=") + (if 0 < j < |semester| then "=" else "")
    {
      var text: string;
      match semester[j] {
        case Code(code) =>
          text := code;
        case Elective(title, options) =>
          text := ElectiveTextOf(title, options);
        case EmptyDict =>
          SlotTextRaises(semester, j);
          return Err("IndexError");
      }
      SlotTextStep(semester, j, text);
      line := line + text;
      if j != |semester| - 1 {
        line := line + "=";
      }
      j := j + 1;
    }
    assert semester[..j] == semester;
    assert line == Join(FlatMap(semester, SlotPiece).value, "=");
    r := Ok(line);
  }

  /** One semester line appended as an entry. */
  lemma SemesterEntry(out: seq<string>, semester: Semester, line: Result<string>)
    requires line == SemesterLine(semester)
    ensures Extends(if line.Ok? then Ok(out + [line.value + "\n"]) else Err(line.error), out, SemesterPiece(semester))
  {
    if line.Ok? {
      ConcatAppend(out, line.value + "\n");
      assert Unlines([line.value]) == line.value + "\n" + Unlines([]);
    }
  }

  /** The padding entry `"\n" * (8 - len(semesters))` closes an iteration. */
  lemma PaddingEntry(lines: seq<string>, out: seq<string>, plan: Plan)
    requires Extends(Ok(out), lines, FlatMap(plan, SemesterPiece))
    ensures Extends(Ok(if |plan| < 8 then out + [Newlines(8 - |plan|)] else out), lines, IterationLines(Some(plan)))
  {
    var done := FlatMap(plan, SemesterPiece).value;
    var pad := Blanks(Padding(|plan|));
    UnlinesBlanks(Padding(|plan|));
    if |plan| < 8 {
      ConcatAppend(out, Newlines(8 - |plan|));
    } else {
      assert pad == [];
    }
    ExtendsThen(lines, out, Ok(if |plan| < 8 then out + [Newlines(8 - |plan|)] else out), done, pad);
  }

  /** The semesters loop of one iteration, padding included. */
  method AppendSemesters(lines: seq<string>, content: Option<Plan>) returns (r: Result<seq<string>>)
    ensures Extends(r, lines, IterationLines(content))
  {
    if content.None? {
      return Err("TypeError");
    }
    var semesters := content.value;
    var out := lines;
    ExtendsStart(semesters, SemesterPiece, lines);
    var i := 0;
    while i < |semesters|
      invariant 0 <= i <= |semesters|
      invariant Extends(Ok(out), lines, FlatMap(semesters[..i], SemesterPiece))
    {
      var line := SemesterLineOf(semesters[i]);
      var next := if line.Ok? then Ok(out + [line.value + "\n"]) else Err(line.error);
      SemesterEntry(out, semesters[i], line);
      ExtendsStep(semesters, SemesterPiece, i, lines, out, next);
      if next.Err? {
        return next;
      }
      out := next.value;
      i := i + 1;
    }
    ExtendsEnd(semesters, SemesterPiece, lines, out);
    PaddingEntry(lines, out, semesters);
    if |semesters| < 8 {
      out := out + [Newlines(8 - |semesters|)];
    }
    r := Ok(out);
  }

  method AppendIteration(lines: seq<string>, entry: (string, Option<Plan>)) returns (r: Result<seq<string>>)
    ensures Extends(r, lines, IterationBlock(entry))
  {
    r := AppendSemesters(lines + ["### " + entry.0 + "\n"], entry.1);
    ExtendsHeader(lines, "### " + entry.0, r, IterationLines(entry.1));
  }

  /** The iterations loop of one program type. */
  method AppendProgram(lines: seq<string>, entry: (string, Iterations)) returns (r: Result<seq<string>>)
    ensures Extends(r, lines, ProgramBlock(entry))
  {
    var iterations := entry.1;
    var start := lines + ["## " + entry.0 + "\n"];
    var out := start;
    ExtendsStart(iterations, IterationBlock, start);
    var i := 0;
    while i < |iterations|
      invariant 0 <= i <= |iterations|
      invariant Extends(Ok(out), start, FlatMap(iterations[..i], IterationBlock))
    {
      var next := AppendIteration(out, iterations[i]);
      ExtendsStep(iterations, IterationBlock, i, start, out, next);
      if next.Err? {
        ExtendsHeader(lines, "## " + entry.0, next, FlatMap(iterations, IterationBlock));
        return next;
      }
      out := next.value;
      i := i + 1;
    }
    ExtendsEnd(iterations, IterationBlock, start, out);
    r := Ok(out);
    ExtendsHeader(lines, "## " + entry.0, r, FlatMap(iterations, IterationBlock));
  }

  /** The program types loop of one faculty. */
  method AppendFaculty(lines: seq<string>, entry: (string, ODict<string, Iterations>)) returns (r: Result<seq<string>>)
    ensures Extends(r, lines, FacultyBlock(entry))
  {
    var programs := entry.1;
    var start := lines + ["# " + entry.0 + "\n"];
    var out := start;
    ExtendsStart(programs, ProgramBlock, start);
    var i := 0;
    while i < |programs|
      invariant 0 <= i <= |programs|
      invariant Extends(Ok(out), start, FlatMap(programs[..i], ProgramBlock))
    {
      var next := AppendProgram(out, programs[i]);
      ExtendsStep(programs, ProgramBlock, i, start, out, next);
      if next.Err? {
        ExtendsHeader(lines, "# " + entry.0, next, FlatMap(programs, ProgramBlock));
        return next;
      }
      out := next.value;
      i := i + 1;
    }
    ExtendsEnd(programs, ProgramBlock, start, out);
    r := Ok(out);
    ExtendsHeader(lines, "# " + entry.0, r, FlatMap(programs, ProgramBlock));
  }

  /** `save_course_plans`: the entries written to the course-plan file, whose
      text is that of `CoursePlanLines(plans)`, or the error it raises. */
  method SaveCoursePlans(plans: FacultyPlans) returns (r: Result<seq<string>>)
    ensures Extends(r, [], CoursePlanLines(plans))
  {
    var out: seq<string> := [];
    ExtendsStart(plans, FacultyBlock, []);
    var i := 0;
    while i < |plans|
      invariant 0 <= i <= |plans|
      invariant Extends(Ok(out), [], FlatMap(plans[..i], FacultyBlock))
    {
      var next := AppendFaculty(out, plans[i]);
      ExtendsStep(plans, FacultyBlock, i, [], out, next);
      if next.Err? {
        return next;
      }
      out := next.value;
      i := i + 1;
    }
    ExtendsEnd(plans, FacultyBlock, [], out);
    r := Ok(out);
  }

  // ------------------------------------------------------------- properties

  /** The text of a slot as intended: a dict without a key writes nothing,
      as the legacy writer's `for title in course.keys()` does. */
  function SlotTextIntended(slot: Slot): string {
    match slot
    case Code(code) => code
    case Elective(title, options) => ElectiveText(title, options)
    case EmptyDict => ""
  }

  function IntendedTexts(semester: Semester): (r: seq<string>)
    ensures |r| == |semester|
  {
    seq(|semester|, j requires 0 <= j < |semester| => SlotTextIntended(semester[j]))
  }

  /** A semester's line as intended: never raises. */
  function SemesterLineIntended(semester: Semester): string {
    Join(IntendedTexts(semester), "=")
  }

  function SemesterLinesIntended(plan: Plan): (r: seq<string>)
    ensures |r| == |plan|
  {
    seq(|plan|, i requires 0 <= i < |plan| => SemesterLineIntended(plan[i]))
  }

  /** An iteration's lines as intended: a page that could not be read,
      stored as `[[{}]]`, writes one empty semester line and the padding. */
  function IterationLinesIntended(plan: Plan): (r: seq<string>)
    ensures |r| == |plan| + Padding(|plan|)
  {
    SemesterLinesIntended(plan) + Blanks(Padding(|plan|))
  }

  lemma {:induction false} SlotTextsAsIntended(semester: Semester)
    ensures FlatMap(semester, SlotPiece).Err? <==> EmptyDict in semester
    ensures FlatMap(semester, SlotPiece).Ok? ==> FlatMap(semester, SlotPiece).value == IntendedTexts(semester)
  {
    if semester != [] {
      var init := semester[..|semester| - 1];
      SlotTextsAsIntended(init);
      assert semester == init + [semester[|semester| - 1]];
      if FlatMap(semester, SlotPiece).Ok? {
        assert IntendedTexts(semester) == IntendedTexts(init) + [SlotTextIntended(semester[|semester| - 1])];
      }
    }
  }

  /** The as-written writer raises on a semester exactly when it holds a
      dict without a key, and otherwise writes the intended line. */
  lemma SemesterLineRaises(semester: Semester)
    ensures SemesterLine(semester).Err? <==> EmptyDict in semester
    ensures SemesterLine(semester).Err? ==> SemesterLine(semester).error == "IndexError"
    ensures SemesterLine(semester).Ok? ==> SemesterLine(semester).value == SemesterLineIntended(semester)
  {
    SlotTextsAsIntended(semester);
    FlatMapError(semester, SlotPiece, "IndexError");
  }

  /** Where no semester holds a dict without a key, the as-written lines of
      an iteration are the intended ones. */
  lemma {:induction false} IterationAsIntended(plan: Plan)
    requires forall i :: 0 <= i < |plan| ==> EmptyDict !in plan[i]
    ensures IterationLines(Some(plan)) == Ok(IterationLinesIntended(plan))
  {
    SemesterLinesAsIntended(plan);
  }

  lemma {:induction false} SemesterLinesAsIntended(plan: Plan)
    requires forall i :: 0 <= i < |plan| ==> EmptyDict !in plan[i]
    ensures FlatMap(plan, SemesterPiece) == Ok(SemesterLinesIntended(plan))
  {
    if plan != [] {
      var init := plan[..|plan| - 1];
      SemesterLinesAsIntended(init);
      SemesterLineRaises(plan[|plan| - 1]);
      assert SemesterLinesIntended(plan) == SemesterLinesIntended(init) + [SemesterLineIntended(plan[|plan| - 1])];
    }
  }

  /** A plan page that could not be read is stored as `[[{}]]`; the
      as-written writer raises on it, so one unreadable page loses the whole
      file, while the intended writer gives eight blank lines. */
  lemma UnreadablePageRaises(faculty: string, program: string, iteration: string)
    ensures PlanOfPage(None) == Ok([[EmptyDict]])
    ensures CoursePlanLines([(faculty, [(program, [(iteration, Some([[EmptyDict]]))])])]) == Err("IndexError")
    ensures IterationLinesIntended([[EmptyDict]]) == Blanks(8)
  {
    var plan: Plan := [[EmptyDict]];
    SemesterLineRaises([EmptyDict]);
    FlatMapOne([EmptyDict], SemesterPiece);
    FlatMapOne((iteration, Some(plan)), IterationBlock);
    FlatMapOne((program, [(iteration, Some(plan))]), ProgramBlock);
    FlatMapOne((faculty, [(program, [(iteration, Some(plan))])]), FacultyBlock);
    assert IterationLinesIntended(plan) == [""] + Blanks(7);
    assert Blanks(8) == Blanks(7) + [""];
  }

  lemma {:induction false} SemesterLinesCount(plan: Plan)
    ensures FlatMap(plan, SemesterPiece).Ok? ==> |FlatMap(plan, SemesterPiece).value| == |plan|
  {
    if plan != [] {
      SemesterLinesCount(plan[..|plan| - 1]);
    }
  }

  /** Every iteration the writer completes has at least eight semester lines:
      one per semester, then blank lines up to the eighth. */
  lemma IterationLineCount(plan: Plan)
    ensures IterationLines(Some(plan)).Ok? ==>
      |IterationLines(Some(plan)).value| == (if |plan| < 8 then 8 else |plan|)
      && forall i :: |plan| <= i < |IterationLines(Some(plan)).value| ==> IterationLines(Some(plan)).value[i] == ""
  {
    SemesterLinesCount(plan);
  }

  /** Names and course codes that hold no newline (elective titles and
      options need not: the writer removes theirs). */
  predicate SlotFree(slot: Slot) {
    slot.Code? ==> '\n' !in slot.code
  }

  predicate SemesterFree(semester: Semester) {
    forall j :: 0 <= j < |semester| ==> SlotFree(semester[j])
  }

  predicate IterationsFree(iterations: Iterations) {
    forall i :: 0 <= i < |iterations| ==>
      '\n' !in iterations[i].0
      && (iterations[i].1.Some? ==> forall k :: 0 <= k < |iterations[i].1.value| ==> SemesterFree(iterations[i].1.value[k]))
  }

  predicate ProgramsFree(programs: ODict<string, Iterations>) {
    forall i :: 0 <= i < |programs| ==> '\n' !in programs[i].0 && IterationsFree(programs[i].1)
  }

  predicate TreeFree(plans: FacultyPlans) {
    forall i :: 0 <= i < |plans| ==> '\n' !in plans[i].0 && ProgramsFree(plans[i].1)
  }

  lemma ElectiveTextFree(title: string, options: seq<string>)
    ensures '\n' !in ElectiveText(title, options)
  {
    JoinChars(CleanOptions(options), "|", '\n');
  }

  lemma SemesterLineFree(semester: Semester)
    requires SemesterFree(semester)
    ensures SemesterPiece(semester).Ok? ==> LinesFree(SemesterPiece(semester).value)
  {
    forall j | 0 <= j < |semester|
      ensures SlotPiece(semester[j]).Ok? ==> LinesFree(SlotPiece(semester[j]).value)
    {
      if semester[j].Elective? {
        ElectiveTextFree(semester[j].title, semester[j].options);
      }
    }
    FlatMapFree(semester, SlotPiece);
    if FlatMap(semester, SlotPiece).Ok? {
      var texts := FlatMap(semester, SlotPiece).value;
      JoinChars(texts, "=", '\n');
    }
  }

  lemma IterationFree(entry: (string, Option<Plan>))
    requires '\n' !in entry.0
    requires entry.1.Some? ==> forall k :: 0 <= k < |entry.1.value| ==> SemesterFree(entry.1.value[k])
    ensures IterationBlock(entry).Ok? ==> LinesFree(IterationBlock(entry).value)
  {
    if entry.1.Some? {
      var plan := entry.1.value;
      forall k | 0 <= k < |plan|
        ensures SemesterPiece(plan[k]).Ok? ==> LinesFree(SemesterPiece(plan[k]).value)
      {
        SemesterLineFree(plan[k]);
      }
      FlatMapFree(plan, SemesterPiece);
    }
  }

  lemma ProgramFree(entry: (string, Iterations))
    requires '\n' !in entry.0 && IterationsFree(entry.1)
    ensures ProgramBlock(entry).Ok? ==> LinesFree(ProgramBlock(entry).value)
  {
    forall i | 0 <= i < |entry.1|
      ensures IterationBlock(entry.1[i]).Ok? ==> LinesFree(IterationBlock(entry.1[i]).value)
    {
      IterationFree(entry.1[i]);
    }
    FlatMapFree(entry.1, IterationBlock);
  }

  lemma FacultyFree(entry: (string, ODict<string, Iterations>))
    requires '\n' !in entry.0 && ProgramsFree(entry.1)
    ensures FacultyBlock(entry).Ok? ==> LinesFree(FacultyBlock(entry).value)
  {
    forall i | 0 <= i < |entry.1|
      ensures ProgramBlock(entry.1[i]).Ok? ==> LinesFree(ProgramBlock(entry.1[i]).value)
    {
      ProgramFree(entry.1[i]);
    }
    FlatMapFree(entry.1, ProgramBlock);
  }

  /** When no name or course code holds a newline, every line of the file is
      one entry of `CoursePlanLines`, so a reader that splits the file's text
      on `"\n"` gets those lines back, then the empty piece after the last
      newline. */
  lemma CoursePlanFileLines(plans: FacultyPlans)
    requires TreeFree(plans) && CoursePlanLines(plans).Ok?
    ensures Split(Unlines(CoursePlanLines(plans).value), "\n") == CoursePlanLines(plans).value + [""]
  {
    forall i | 0 <= i < |plans|
      ensures FacultyBlock(plans[i]).Ok? ==> LinesFree(FacultyBlock(plans[i]).value)
    {
      FacultyFree(plans[i]);
    }
    FlatMapFree(plans, FacultyBlock);
    SplitUnlines(CoursePlanLines(plans).value);
  }
}
