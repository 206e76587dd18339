/** The curriculum tree the course-plan scraper builds, and what it does to it:
    reading one iteration's plan from its page, the bounded retry around that,
    dropping empty program types and faculties in place, and re-keying the
    tree by "{program name} ({program type})" and iteration name. Pages are
    replaced by the rows they hold. */
module CoursePlanModel {
  import opened Wrappers
  import opened Text
  import opened OrderedDict
  import opened ProgramLabel

  /** One entry of a semester: a course code, an elective group (its title and
      the codes to choose from; a one-key dict in the source), or the empty dict
      the source writes when an iteration's page cannot be loaded. */
  datatype Slot = Code(code: string) | Elective(title: string, options: seq<string>) | EmptyDict

  type Semester = seq<Slot>

  /** The semesters of one iteration of a program, in order. */
  type Plan = seq<Semester>

  /** Iteration label to plan; `None` is the sentinel stored after five failed attempts. */
  type Iterations = ODict<string, Option<Plan>>

  /** Faculty to program type to iteration label to plan, as scraped; after
      re-keying, faculty to program key to iteration name to plan. */
  type FacultyPlans = ODict<string, ODict<string, Iterations>>

  // ---------------------------------------------------------------- one iteration page

  /** The page an elective row links to: not loaded, loaded without a table,
      or loaded with a table whose rows are listed, header first, each by its
      link's text, `None` for a row without a link. */
  datatype ElectivePage = PageMissing | NoTable | OptionTable(rowLinks: seq<Option<string>>)

  /** A row of a semester table: how many cells it has, the first cell's
      link text (`None` when that cell holds no link), the second cell's
      text, and the elective page behind the link. */
  datatype PlanRow = PlanRow(cellCount: nat, linkText: Option<string>, titleText: string, electivePage: ElectivePage)

  /** A table of a plan page: the rows of its body, `None` for a table
      without `<tbody>`. */
  type PlanTable = Option<seq<PlanRow>>

  /** What reading a plan page can raise: an attribute of a missing element,
      or a missing cell. */
  predicate RowError(e: string) {
    e == "AttributeError" || e == "IndexError"
  }

  /** Each text with newlines removed, then stripped. */
  function CleanAll(xs: seq<string>): (r: seq<string>)
    ensures |r| == |xs|
  {
    if xs == [] then [] else [CleanText(xs[0])] + CleanAll(xs[1..])
  }

  /** The `i`-th cleaned text is the `i`-th text, cleaned. */
  lemma {:induction false} CleanAllAt(xs: seq<string>, i: nat)
    requires i < |xs|
    ensures CleanAll(xs)[i] == CleanText(xs[i])
  {
    if i > 0 {
      CleanAllAt(xs[1..], i - 1);
    }
  }

  /** Remove newlines, then strip. */
  function CleanText(s: string): string {
    Strip(ReplaceAll(s, "\n", ""))
  }

  /** `("Dersler" or "Courses") in code`: the `or` yields "Dersler", so only
      the Turkish button label marks an elective row. */
  predicate IsElectiveButton(code: string) {
    Contains(code, "Dersler")
  }

  /** The first cell holds a link whose stripped text marks an elective. */
  predicate ElectiveRow(row: PlanRow) {
    row.linkText.Some? && IsElectiveButton(Strip(row.linkText.value))
  }

  /** The rows of an option table after its header. */
  function OptionRows(links: seq<Option<string>>): seq<Option<string>> {
    if links == [] then [] else links[1..]
  }

  /** The slot of an elective row, from its title cell and the page it links to.
      A page that did not load, or an option row without a link, raises
      (attribute access on `None`). */
  function ElectiveSlot(titleText: string, page: ElectivePage): (r: Result<Slot>)
    ensures r.Err? <==> page.PageMissing? || (page.OptionTable? && None in OptionRows(page.rowLinks))
    ensures r.Err? ==> r.error == "AttributeError"
  {
    match page
    case PageMissing => Err("AttributeError")
    case NoTable => Ok(Elective(titleText, []))
    case OptionTable(links) =>
      var rest := OptionRows(links);
      if None in rest then Err("AttributeError")
      else Ok(Elective(CleanText(titleText), CleanAll(Somes(rest))))
  }

  /** One row of a semester table: `cells[0]` and, for an elective, `cells[1]`
      raise `IndexError` when missing; a first cell without a link raises
      `AttributeError`. */
  function SlotOf(row: PlanRow): (r: Result<Slot>)
    ensures r.Err? ==> RowError(r.error)
  {
    if row.cellCount == 0 then Err("IndexError")
    else match row.linkText
      case None => Err("AttributeError")
      case Some(text) => LinkedSlot(Strip(text), row)
  }

  /** A row whose first cell's link reads `code`: a plain code, or an
      elective whose title is in `cells[1]`. */
  function LinkedSlot(code: string, row: PlanRow): Result<Slot> {
    if !IsElectiveButton(code) then Ok(Code(code))
    else if row.cellCount < 2 then Err("IndexError")
    else ElectiveSlot(row.titleText, row.electivePage)
  }

  /** A row raises exactly when it has no cell, its first cell has no link,
      or it is an elective row with a single cell, with a page that did not
      load, or with an option row that has no link; the missing cells raise
      `IndexError`, the rest `AttributeError`. */
  lemma SlotOfRaises(row: PlanRow)
    ensures SlotOf(row).Err? <==>
      row.cellCount == 0 || row.linkText.None?
      || (ElectiveRow(row) && (row.cellCount < 2 || row.electivePage.PageMissing?
                               || (row.electivePage.OptionTable? && None in OptionRows(row.electivePage.rowLinks))))
    ensures SlotOf(row).Err? && SlotOf(row).error == "IndexError" <==>
      row.cellCount == 0 || (row.cellCount == 1 && ElectiveRow(row))
  {
  }

  /** A row is a plain code unless its button label marks an elective; an
      elective's options are the rows of its page's table after the header,
      cleaned of newlines and whitespace, or none when the page has no table. */
  lemma SlotOfRow(row: PlanRow)
    ensures row.cellCount >= 1 && row.linkText.Some? && !ElectiveRow(row) ==>
      SlotOf(row) == Ok(Code(Strip(row.linkText.value)))
    ensures row.cellCount >= 2 && ElectiveRow(row) && row.electivePage.NoTable? ==>
      SlotOf(row) == Ok(Elective(row.titleText, []))
    ensures (row.cellCount >= 2 && ElectiveRow(row) && row.electivePage.OptionTable?
             && None !in OptionRows(row.electivePage.rowLinks)) ==>
      var links := row.electivePage.rowLinks;
      var r := SlotOf(row);
      r.Ok? && r.value.Elective? && r.value.title == CleanText(row.titleText)
      && |r.value.options| == (if links == [] then 0 else |links| - 1)
      && forall i :: 0 <= i < |r.value.options| ==> links[i + 1].Some? && r.value.options[i] == CleanText(links[i + 1].value)
  {
    if row.cellCount >= 1 && row.linkText.Some? {
      assert SlotOf(row) == LinkedSlot(Strip(row.linkText.value), row);
      if row.cellCount >= 2 && ElectiveRow(row) {
        assert SlotOf(row) == ElectiveSlot(row.titleText, row.electivePage);
      }
    }
    if row.cellCount >= 2 && ElectiveRow(row) && row.electivePage.OptionTable? && None !in OptionRows(row.electivePage.rowLinks) {
      OptionTableSlot(row.titleText, row.electivePage.rowLinks);
    }
  }

  /** An option table whose every row has a link lists those links' texts, cleaned. */
  lemma OptionTableSlot(titleText: string, links: seq<Option<string>>)
    requires None !in OptionRows(links)
    ensures var r := ElectiveSlot(titleText, OptionTable(links));
      r.Ok? && r.value.Elective? && r.value.title == CleanText(titleText)
      && |r.value.options| == (if links == [] then 0 else |links| - 1)
      && forall i :: 0 <= i < |r.value.options| ==> links[i + 1].Some? && r.value.options[i] == CleanText(links[i + 1].value)
  {
    var rest := OptionRows(links);
    assert forall k :: 0 <= k < |rest| ==> rest[k] in rest;
    SomesAll(rest);
    forall i | 0 <= i < |rest| ensures rest[i] == links[i + 1] && CleanAll(Somes(rest))[i] == CleanText(rest[i].value) {
      CleanAllAt(Somes(rest), i);
    }
  }

  /** The slots of one table, one per row: a semester exactly when no row
      raises, and otherwise the error of the first row that raises. */
  function SemesterOf(rows: seq<PlanRow>): (r: Result<Semester>)
    ensures r.Ok? <==> forall k :: 0 <= k < |rows| ==> SlotOf(rows[k]).Ok?
    ensures r.Ok? ==> |r.value| == |rows| && forall k :: 0 <= k < |rows| ==> SlotOf(rows[k]) == Ok(r.value[k])
  {
    var slots := seq(|rows|, k requires 0 <= k < |rows| => SlotOf(rows[k]));
    assert forall k :: 0 <= k < |rows| ==> slots[k] == SlotOf(rows[k]);
    AllOk(slots)
  }

  /** Rows that all give slots give exactly those slots, in order. */
  lemma SemesterOfValues(rows: seq<PlanRow>, slots: Semester)
    requires |slots| == |rows| && forall k :: 0 <= k < |rows| ==> SlotOf(rows[k]) == Ok(slots[k])
    ensures SemesterOf(rows) == Ok(slots)
  {
    AllOkValues(seq(|rows|, k requires 0 <= k < |rows| => SlotOf(rows[k])), slots);
  }

  /** One more row that gives a slot extends the slots read so far. */
  lemma SlotsStep(rows: seq<PlanRow>, k: nat, slots: Semester, slot: Slot)
    requires k < |rows| && |slots| == k && SlotOf(rows[k]) == Ok(slot)
    requires forall i :: 0 <= i < k ==> SlotOf(rows[i]) == Ok(slots[i])
    ensures forall i :: 0 <= i < k + 1 ==> SlotOf(rows[i]) == Ok((slots + [slot])[i])
  {
    forall i | 0 <= i < k + 1 ensures SlotOf(rows[i]) == Ok((slots + [slot])[i]) {
      if i < k {
        assert (slots + [slot])[i] == slots[i];
      }
    }
  }

  /** One more table that gives a semester extends the semesters read so far. */
  lemma SemestersStep(tables: seq<PlanTable>, t: nat, semesters: Plan, semester: Semester)
    requires t < |tables| && |semesters| == t && TableSemester(tables[t]) == Ok(semester)
    requires forall i :: 0 <= i < t ==> TableSemester(tables[i]) == Ok(semesters[i])
    ensures forall i :: 0 <= i < t + 1 ==> TableSemester(tables[i]) == Ok((semesters + [semester])[i])
  {
    forall i | 0 <= i < t + 1 ensures TableSemester(tables[i]) == Ok((semesters + [semester])[i]) {
      if i < t {
        assert (semesters + [semester])[i] == semesters[i];
      }
    }
  }

  /** Tables that all give semesters give exactly those semesters, in order. */
  lemma PlanOfTablesValues(tables: seq<PlanTable>, semesters: Plan)
    requires |semesters| == |tables| && forall i :: 0 <= i < |tables| ==> TableSemester(tables[i]) == Ok(semesters[i])
    ensures PlanOfTables(tables) == Ok(semesters)
  {
    AllOkValues(seq(|tables|, i requires 0 <= i < |tables| => TableSemester(tables[i])), semesters);
  }

  /** The semester of one table: `table.find("tbody")` is `None` for a table
      without a body, and reading its rows raises `AttributeError`. */
  function TableSemester(table: PlanTable): (r: Result<Semester>)
    ensures r.Ok? <==> table.Some? && SemesterOf(table.value).Ok?
    ensures r.Err? ==> RowError(r.error)
  {
    match table
    case None => Err("AttributeError")
    case Some(rows) => SemesterErrors(rows); SemesterOf(rows)
  }

  /** The plan of a page that loaded, one semester per table: a plan exactly
      when no table raises, and otherwise the error of the first that does. */
  function PlanOfTables(tables: seq<PlanTable>): (r: Result<Plan>)
    ensures r.Ok? <==> forall i :: 0 <= i < |tables| ==> TableSemester(tables[i]).Ok?
    ensures r.Ok? ==> |r.value| == |tables| && forall i :: 0 <= i < |tables| ==> TableSemester(tables[i]) == Ok(r.value[i])
  {
    var semesters := seq(|tables|, i requires 0 <= i < |tables| => TableSemester(tables[i]));
    assert forall i :: 0 <= i < |tables| ==> semesters[i] == TableSemester(tables[i]);
    AllOk(semesters)
  }

  /** A table raises only `AttributeError` or `IndexError`. */
  lemma SemesterErrors(rows: seq<PlanRow>)
    ensures SemesterOf(rows).Err? ==> RowError(SemesterOf(rows).error)
  {
    if SemesterOf(rows).Err? {
      var k :| 0 <= k < |rows| && SlotOf(rows[k]).Err?;
      var j := FirstErrSlot(rows, k);
      SemesterOfRaises(rows, j);
    }
  }

  /** The position of the first row that raises, given one that does. */
  lemma {:induction false} FirstErrSlot(rows: seq<PlanRow>, k: nat) returns (j: nat)
    requires k < |rows| && SlotOf(rows[k]).Err?
    ensures j <= k && SlotOf(rows[j]).Err? && forall i :: 0 <= i < j ==> SlotOf(rows[i]).Ok?
    decreases k
  {
    if exists i :: 0 <= i < k && SlotOf(rows[i]).Err? {
      var i :| 0 <= i < k && SlotOf(rows[i]).Err?;
      j := FirstErrSlot(rows, i);
    } else {
      j := k;
    }
  }

  /** A page raises only `AttributeError` or `IndexError`. */
  lemma PlanErrors(tables: seq<PlanTable>)
    ensures PlanOfTables(tables).Err? ==> RowError(PlanOfTables(tables).error)
  {
    if PlanOfTables(tables).Err? {
      var k :| 0 <= k < |tables| && TableSemester(tables[k]).Err?;
      var i := FirstErrTable(tables, k);
      PlanOfTablesRaises(tables, i);
    }
  }

  /** The position of the first table that raises, given one that does. */
  lemma {:induction false} FirstErrTable(tables: seq<PlanTable>, k: nat) returns (j: nat)
    requires k < |tables| && TableSemester(tables[k]).Err?
    ensures j <= k && TableSemester(tables[j]).Err? && forall i :: 0 <= i < j ==> TableSemester(tables[i]).Ok?
    decreases k
  {
    if exists i :: 0 <= i < k && TableSemester(tables[i]).Err? {
      var i :| 0 <= i < k && TableSemester(tables[i]).Err?;
      j := FirstErrTable(tables, i);
    } else {
      j := k;
    }
  }

  /** The first row that raises makes its table raise with that row's error. */
  lemma SemesterOfRaises(rows: seq<PlanRow>, j: nat)
    requires j < |rows| && SlotOf(rows[j]).Err?
    requires forall k :: 0 <= k < j ==> SlotOf(rows[k]).Ok?
    ensures SemesterOf(rows) == Err(SlotOf(rows[j]).error)
  {
    AllOkFirstErr(seq(|rows|, k requires 0 <= k < |rows| => SlotOf(rows[k])), j);
  }

  /** The first table that raises makes the page raise with that table's error. */
  lemma PlanOfTablesRaises(tables: seq<PlanTable>, i: nat)
    requires i < |tables| && TableSemester(tables[i]).Err?
    requires forall k :: 0 <= k < i ==> TableSemester(tables[k]).Ok?
    ensures PlanOfTables(tables) == Err(TableSemester(tables[i]).error)
  {
    AllOkFirstErr(seq(|tables|, k requires 0 <= k < |tables| => TableSemester(tables[k])), i);
  }

  /** A loaded page yields one semester per table and one slot per row, each
      slot the one its row gives; it raises when some row raises or some
      table has no body. */
  lemma PlanOfLoadedPage(tables: seq<PlanTable>, i: nat, j: nat)
    requires i < |tables| && tables[i].Some? && j < |tables[i].value|
    ensures PlanOfTables(tables).Ok? ==>
      |PlanOfTables(tables).value| == |tables| && |PlanOfTables(tables).value[i]| == |tables[i].value|
      && SlotOf(tables[i].value[j]).Ok? && PlanOfTables(tables).value[i][j] == SlotOf(tables[i].value[j]).value
    ensures SlotOf(tables[i].value[j]).Err? ==> PlanOfTables(tables).Err?
    ensures (exists k :: 0 <= k < |tables| && tables[k].None?) ==> PlanOfTables(tables).Err?
  {
    if PlanOfTables(tables).Ok? {
      assert TableSemester(tables[i]) == Ok(PlanOfTables(tables).value[i]);
    }
    if SlotOf(tables[i].value[j]).Err? {
      assert TableSemester(tables[i]).Err?;
    }
    if exists k :: 0 <= k < |tables| && tables[k].None? {
      var k :| 0 <= k < |tables| && tables[k].None?;
      assert TableSemester(tables[k]).Err?;
    }
  }

  /** A page that did not load gives the placeholder plan `[[dict()]]`. */
  function PlanOfPage(page: Option<seq<PlanTable>>): Result<Plan> {
    match page
    case None => Ok([[EmptyDict]])
    case Some(tables) => PlanOfTables(tables)
  }

  /** The button label of the English page, "Courses", does not mark an
      elective row: such a row is taken as a plain course code. */
  lemma CoursesButtonIsPlainCode(row: PlanRow)
    requires row.cellCount >= 1 && row.linkText == Some("Courses")
    ensures SlotOf(row) == Ok(Code("Courses"))
  {
    var code := row.linkText.value;
    NotContainsStartingWith(code, "Dersler");
    StripFixed(Python, code);
    assert Strip(code) == code && !IsElectiveButton(code);
    assert SlotOf(row) == LinkedSlot(Strip(code), row);
  }

  // ---------------------------------------------------------------- bounded retry

  /** `scrap_iteration_and_save` from attempt `retryCount` on: `outcomes[k]`
      is what the `k`-th call of `scrape_iteration_course_plan` returns or
      raises. Gives the stored value and the number of attempts made. */
  function SaveWithRetry(outcomes: seq<Result<Plan>>, retryCount: nat): (r: (Option<Plan>, nat))
    requires |outcomes| >= 5
    ensures r.1 <= if retryCount >= 5 then 0 else 5 - retryCount
    ensures r.0.Some? ==> r.1 >= 1 && outcomes[retryCount + r.1 - 1] == Ok(r.0.value)
    ensures forall k :: retryCount <= k < retryCount + r.1 - (if r.0.Some? then 1 else 0) ==> outcomes[k].Err?
    ensures r.0.None? ==> r.1 == if retryCount >= 5 then 0 else 5 - retryCount
    decreases 5 - retryCount
  {
    if retryCount >= 5 then (None, 0)
    else
      match outcomes[retryCount]
      case Ok(p) => (Some(p), 1)
      case Err(_) =>
        var rest := SaveWithRetry(outcomes, retryCount + 1);
        (rest.0, rest.1 + 1)
  }

  /** Each iteration is attempted at most five times, and ends as the plan of
      its first successful attempt, or as the `None` sentinel when all five
      attempts raised. */
  lemma {:induction false} RetryOutcome(outcomes: seq<Result<Plan>>)
    requires |outcomes| >= 5
    ensures 1 <= SaveWithRetry(outcomes, 0).1 <= 5
    ensures SaveWithRetry(outcomes, 0).0.None? <==> forall k :: 0 <= k < 5 ==> outcomes[k].Err?
  {
    var r := SaveWithRetry(outcomes, 0);
    if r.0.Some? {
      assert outcomes[r.1 - 1].Ok?;
    }
  }

  /** A row of an iteration list: how many cells it has, the target of the
      first cell's first link (`None` when that cell holds no link), and the
      second cell's text. */
  datatype IterationRow = IterationRow(cellCount: nat, href: Option<string>, nameCell: string)

  /** `cells[0].select("a")[0]` and `cells[1]` both exist; otherwise reading
      the row raises `IndexError`, outside the retry. */
  predicate ReadableIterationRow(row: IterationRow) {
    row.cellCount >= 2 && row.href.Some?
  }

  /** The assignments `program_iterations[name] = value` made, in order. */
  function IterationEntries(rows: seq<IterationRow>, outcomes: seq<seq<Result<Plan>>>): (r: seq<(string, Option<Plan>)>)
    requires |outcomes| == |rows| && forall i :: 0 <= i < |rows| ==> |outcomes[i]| >= 5
    ensures |r| == |rows|
    ensures forall i :: 0 <= i < |rows| ==> r[i] == (Strip(rows[i].nameCell), SaveWithRetry(outcomes[i], 0).0)
  {
    seq(|rows|, i requires 0 <= i < |rows| => (Strip(rows[i].nameCell), SaveWithRetry(outcomes[i], 0).0))
  }


  /** The assignments the save loop makes for a list of (name, url) pairs. */
  function SavedEntries(iterations: seq<(string, string)>, outcomes: seq<seq<Result<Plan>>>): (r: seq<(string, Option<Plan>)>)
    requires |outcomes| == |iterations| && forall i :: 0 <= i < |iterations| ==> |outcomes[i]| >= 5
    ensures |r| == |iterations|
    ensures forall i :: 0 <= i < |iterations| ==> r[i] == (iterations[i].0, SaveWithRetry(outcomes[i], 0).0)
  {
    seq(|iterations|, i requires 0 <= i < |iterations| => (iterations[i].0, SaveWithRetry(outcomes[i], 0).0))
  }

  /** After scraping, every listed name is present, with the result of the
      last row listing it. */
  lemma ScrapedIterationLookup(rows: seq<IterationRow>, outcomes: seq<seq<Result<Plan>>>, i: nat)
    requires |outcomes| == |rows| && forall k :: 0 <= k < |rows| ==> |outcomes[k]| >= 5
    requires i < |rows| && forall k :: i < k < |rows| ==> Strip(rows[k].nameCell) != Strip(rows[i].nameCell)
    ensures Get(SetAll([], IterationEntries(rows, outcomes)), Strip(rows[i].nameCell)) == Some(SaveWithRetry(outcomes[i], 0).0)
  {
    var es := IterationEntries(rows, outcomes);
    var key := Strip(rows[i].nameCell);
    GetSetAll([], es, key);
    assert Keys(es)[i] == key;
    LastValueAt(es, i);
  }

  /** The last entry for a key that no later entry repeats. */
  lemma {:induction false} LastValueAt<K, V>(es: seq<(K, V)>, i: nat)
    requires i < |es| && forall k :: i < k < |es| ==> es[k].0 != es[i].0
    ensures LastValue(es, es[i].0) == Some(es[i].1)
  {
    if i < |es| - 1 {
      var init := es[..|es| - 1];
      assert init[i] == es[i];
      LastValueAt(init, i);
    }
  }

  // ---------------------------------------------------------------- re-keying

  /** The assignments one program type contributes to its faculty:
      `(program key, iteration) -> content`, one per program whose label resolves. */
  function ProgramEntries(programType: string, programs: Iterations): seq<((string, string), Option<Plan>)> {
    if programs == [] then []
    else
      var init := ProgramEntries(programType, programs[..|programs| - 1]);
      var last := programs[|programs| - 1];
      match ResolveLabel(last.0)
      case None => init
      case Some(nameIteration) => init + [((ProgramKey(nameIteration.0, programType), nameIteration.1), last.1)]
  }

  /** The assignment one program makes, if its label resolves. */
  function ProgramAssignment(programType: string, program: (string, Option<Plan>)): Option<((string, string), Option<Plan>)> {
    match ResolveLabel(program.0)
    case None => None
    case Some(nameIteration) => Some(((ProgramKey(nameIteration.0, programType), nameIteration.1), program.1))
  }

  /** One more program adds its assignment, if any. */
  lemma ProgramEntriesStep(programType: string, programs: Iterations, p: nat)
    requires p < |programs|
    ensures ProgramEntries(programType, programs[..p + 1]) == ProgramEntries(programType, programs[..p])
      + (match ProgramAssignment(programType, programs[p]) case None => [] case Some(e) => [e])
  {
    assert programs[..p + 1][..p] == programs[..p];
  }

  /** Filing one more program into a faculty's dictionary. */
  lemma SetAllProgramsStep(d: ODict<string, Iterations>, programType: string, programs: Iterations, p: nat)
    requires p < |programs|
    ensures SetAll2(d, ProgramEntries(programType, programs[..p + 1])) ==
      match ProgramAssignment(programType, programs[p])
      case None => SetAll2(d, ProgramEntries(programType, programs[..p]))
      case Some(e) => Set2(SetAll2(d, ProgramEntries(programType, programs[..p])), e.0.0, e.0.1, e.1)
  {
    ProgramEntriesStep(programType, programs, p);
    var done := ProgramEntries(programType, programs[..p]);
    match ProgramAssignment(programType, programs[p])
    case None =>
      assert done + [] == done;
    case Some(e) =>
      SetAll2Snoc(d, done, e);
  }

  /** The assignments of all program types of a faculty, in iteration order. */
  function FacultyEntries(programTypes: ODict<string, Iterations>): seq<((string, string), Option<Plan>)> {
    if programTypes == [] then []
    else
      var last := programTypes[|programTypes| - 1];
      FacultyEntries(programTypes[..|programTypes| - 1]) + ProgramEntries(last.0, last.1)
  }

  /** A faculty's programs keyed by program key, then iteration name. */
  function FormatFaculty(programTypes: ODict<string, Iterations>): ODict<string, Iterations> {
    SetAll2([], FacultyEntries(programTypes))
  }

  function FormattedEntries(plans: FacultyPlans): (r: FacultyPlans)
    ensures |r| == |plans| && forall i :: 0 <= i < |plans| ==> r[i] == (plans[i].0, FormatFaculty(plans[i].1))
  {
    seq(|plans|, i requires 0 <= i < |plans| => (plans[i].0, FormatFaculty(plans[i].1)))
  }

  /** What `get_formatted_faculty_course_plans` returns. */
  function Formatted(plans: FacultyPlans): FacultyPlans {
    SetAll([], FormattedEntries(plans))
  }


  /** Every program contributes exactly one assignment, under the key and
      iteration its label resolves to, with its content unchanged. */
  lemma {:induction false} ProgramEntriesExact(programType: string, programs: Iterations)
    ensures |ProgramEntries(programType, programs)| == |programs|
    ensures forall j :: 0 <= j < |programs| ==>
      var nameIteration := ResolveLabel(programs[j].0).value;
      ProgramEntries(programType, programs)[j] == ((ProgramKey(nameIteration.0, programType), nameIteration.1), programs[j].1)
  {
    if programs != [] {
      var init := programs[..|programs| - 1];
      ProgramEntriesExact(programType, init);
      ResolveTotal(programs[|programs| - 1].0);
      forall j | 0 <= j < |init| ensures ResolveLabel(programs[j].0).Some? {
        ResolveTotal(programs[j].0);
      }
    }
  }

  /** Re-keying keeps every faculty of the input, in order, even one left
      without programs, and files each under its re-keyed programs. */
  lemma FormattedKeys(plans: FacultyPlans)
    requires Valid(plans)
    ensures Formatted(plans) == FormattedEntries(plans)
    ensures Keys(Formatted(plans)) == Keys(plans)
  {
    var es := FormattedEntries(plans);
    assert Keys(es) == Keys(plans);
    SetAllFresh(es);
  }

  /** Within a faculty, the content filed under a program key and iteration
      is that of the last program resolving to them; other pairs are absent. */
  lemma FormatFacultyLookup(programTypes: ODict<string, Iterations>, key: string, iteration: string)
    ensures Get2(FormatFaculty(programTypes), key, iteration)
      == LastValue(FacultyEntries(programTypes), (key, iteration))
  {
    Get2SetAll2([], FacultyEntries(programTypes), key, iteration);
  }

  // ---------------------------------------------------------------- pruning

  function DropEmptyProgramTypes(plans: FacultyPlans): (r: FacultyPlans)
    ensures |r| == |plans| && forall i :: 0 <= i < |plans| ==> r[i] == (plans[i].0, DropEmpty(plans[i].1))
  {
    seq(|plans|, i requires 0 <= i < |plans| => (plans[i].0, DropEmpty(plans[i].1)))
  }

  /** The tree without empty program types, then without empty faculties. */
  function Pruned(plans: FacultyPlans): FacultyPlans {
    DropEmpty(DropEmptyProgramTypes(plans))
  }

  /** Dropping empty program types keeps the faculties and their order. */
  lemma KeysDropEmptyProgramTypes(plans: FacultyPlans)
    requires Valid(plans)
    ensures Keys(DropEmptyProgramTypes(plans)) == Keys(plans)
    ensures Valid(DropEmptyProgramTypes(plans))
  {
    assert Keys(DropEmptyProgramTypes(plans)) == Keys(plans);
  }

  /** Both levels of the tree are dictionaries. */
  predicate ValidTree(plans: FacultyPlans) {
    Valid(plans) && forall i :: 0 <= i < |plans| ==> Valid(plans[i].1)
  }


  /** After pruning no faculty and no program type is empty. */
  lemma PrunedHasNoEmpty(plans: FacultyPlans)
    ensures forall i :: 0 <= i < |Pruned(plans)| ==> |Pruned(plans)[i].1| > 0
    ensures forall i, j :: 0 <= i < |Pruned(plans)| && 0 <= j < |Pruned(plans)[i].1| ==> |Pruned(plans)[i].1[j].1| > 0
  {
    var middle := DropEmptyProgramTypes(plans);
    forall i, j | 0 <= i < |Pruned(plans)| && 0 <= j < |Pruned(plans)[i].1| ensures |Pruned(plans)[i].1[j].1| > 0 {
      var e := Pruned(plans)[i];
      assert e in middle;
      var m :| 0 <= m < |middle| && middle[m] == e;
      assert e.1 == DropEmpty(plans[m].1);
    }
  }

  /** Pruning keeps each faculty that still has a non-empty program type,
      with exactly its non-empty program types, untouched. */
  lemma PrunedLookup(plans: FacultyPlans, i: nat)
    requires ValidTree(plans) && i < |plans|
    ensures Get(Pruned(plans), plans[i].0) == if DropEmpty(plans[i].1) == [] then None else Some(DropEmpty(plans[i].1))
  {
    var middle := DropEmptyProgramTypes(plans);
    assert Keys(middle) == Keys(plans);
    GetDropEmpty(middle, i);
  }

  /** Pruning twice is pruning once. */
  lemma PruneIdempotent(plans: FacultyPlans)
    ensures Pruned(Pruned(plans)) == Pruned(plans)
  {
    var p := Pruned(plans);
    var middle := DropEmptyProgramTypes(plans);
    forall i | 0 <= i < |p| ensures DropEmpty(p[i].1) == p[i].1 {
      assert p[i] in middle;
      var m :| 0 <= m < |middle| && middle[m] == p[i];
      DropEmptyIdempotent(plans[m].1);
    }
    assert DropEmptyProgramTypes(p) == p;
    DropEmptyIdempotent(middle);
  }
}
