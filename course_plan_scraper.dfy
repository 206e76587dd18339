/** The imperative side of the course-plan scraper: the loops that read an
    iteration's page, scrape an iteration list, re-key the tree, and the
    scraper object whose tree is pruned in place. Each is proved to compute
    the function of the same name in `CoursePlanModel`. */
module CoursePlanScraper {
  import opened Wrappers
  import opened Text
  import opened OrderedDict
  import opened ProgramLabel
  import opened CoursePlanModel

  /** The rows of one table in turn (the inner loop of `scrape_iteration_course_plan`). */
  method ScrapeTable(rows: seq<PlanRow>) returns (r: Result<Semester>)
    ensures r == SemesterOf(rows)
  {
    var semesterProgram: Semester := [];
    for k := 0 to |rows|
      invariant |semesterProgram| == k
      invariant forall i :: 0 <= i < k ==> SlotOf(rows[i]) == Ok(semesterProgram[i])
    {
      var slot := SlotOf(rows[k]);
      if slot.Err? {
        SemesterOfRaises(rows, k);
        return Err(slot.error);
      }
      SlotsStep(rows, k, semesterProgram, slot.value);
      semesterProgram := semesterProgram + [slot.value];
    }
    SemesterOfValues(rows, semesterProgram);
    return Ok(semesterProgram);
  }

  /** `scrape_iteration_course_plan`: a page that did not load gives the
      placeholder plan, a loaded one is read table by table. */
  method ScrapeIterationCoursePlan(page: Option<seq<PlanTable>>) returns (r: Result<Plan>)
    ensures r == PlanOfPage(page)
  {
    if page.None? {
      return Ok([[EmptyDict]]);
    }
    r := ScrapeTables(page.value);
  }

  /** The tables of a loaded page in turn (the outer loop of
      `scrape_iteration_course_plan`): one semester per table; a table
      without a body raises at `find("tbody").find_all`. */
  method ScrapeTables(tables: seq<PlanTable>) returns (r: Result<Plan>)
    ensures r == PlanOfTables(tables)
  {
    var programList: Plan := [];
    for t := 0 to |tables|
      invariant |programList| == t
      invariant forall i :: 0 <= i < t ==> TableSemester(tables[i]) == Ok(programList[i])
    {
      if tables[t].None? {
        PlanOfTablesRaises(tables, t);
        return Err("AttributeError");
      }
      var semester := ScrapeTable(tables[t].value);
      if semester.Err? {
        PlanOfTablesRaises(tables, t);
        return Err(semester.error);
      }
      SemestersStep(tables, t, programList, semester.value);
      programList := programList + [semester.value];
    }
    PlanOfTablesValues(tables, programList);
    return Ok(programList);
  }

  /** `scrap_iterations`: an iteration-list page that did not load gives no
      iterations; a row without its two cells or its link raises before any
      iteration is scraped; otherwise every listed iteration is scraped with
      the retry, a name listed twice keeping the later result. */
  method ScrapIterations(page: Option<seq<IterationRow>>, outcomes: seq<seq<Result<Plan>>>) returns (d: Result<Iterations>)
    requires page.Some? ==> |outcomes| == |page.value| && forall i :: 0 <= i < |outcomes| ==> |outcomes[i]| >= 5
    ensures page.None? ==> d == Ok([])
    ensures page.Some? && (exists k :: 0 <= k < |page.value| && !ReadableIterationRow(page.value[k])) ==> d == Err("IndexError")
    ensures page.Some? && (forall k :: 0 <= k < |page.value| ==> ReadableIterationRow(page.value[k])) ==>
      d == Ok(SetAll([], IterationEntries(page.value, outcomes)))
  {
    if page.None? {
      return Ok([]);
    }
    var rows := page.value;
    var links := CollectIterationLinks(rows);
    if links.Err? {
      return Err(links.error);
    }
    var iterations := links.value;
    var saved := SaveIterations(iterations, outcomes);
    assert SavedEntries(iterations, outcomes) == IterationEntries(rows, outcomes);
    return Ok(saved);
  }

  /** The (name, url) pairs of an iteration list, in row order; the first
      row without its two cells or its link raises `IndexError`. */
  method CollectIterationLinks(rows: seq<IterationRow>) returns (r: Result<seq<(string, string)>>)
    ensures r.Err? <==> exists k :: 0 <= k < |rows| && !ReadableIterationRow(rows[k])
    ensures r.Err? ==> r.error == "IndexError"
    ensures r.Ok? ==> |r.value| == |rows| && forall k :: 0 <= k < |rows| ==>
      ReadableIterationRow(rows[k]) && r.value[k] == (Strip(rows[k].nameCell), "https://obs.itu.edu.tr" + rows[k].href.value)
  {
    var iterations: seq<(string, string)> := [];
    for i := 0 to |rows|
      invariant |iterations| == i
      invariant forall k :: 0 <= k < i ==>
        ReadableIterationRow(rows[k]) && iterations[k] == (Strip(rows[k].nameCell), "https://obs.itu.edu.tr" + rows[k].href.value)
    {
      var row := rows[i];
      if row.cellCount == 0 || row.href.None? || row.cellCount == 1 {
        return Err("IndexError");
      }
      iterations := iterations + [(Strip(row.nameCell), "https://obs.itu.edu.tr" + row.href.value)];
    }
    return Ok(iterations);
  }

  /** The second loop of `scrap_iterations`: each (name, url) pair scraped
      with the retry and stored under its name. */
  method SaveIterations(iterations: seq<(string, string)>, outcomes: seq<seq<Result<Plan>>>) returns (d: Iterations)
    requires |outcomes| == |iterations| && forall i :: 0 <= i < |outcomes| ==> |outcomes[i]| >= 5
    ensures d == SetAll([], SavedEntries(iterations, outcomes))
  {
    d := [];
    var n := 0;
    ghost var entries := SavedEntries(iterations, outcomes);
    while n < |iterations|
      invariant 0 <= n <= |iterations|
      invariant d == SetAll([], entries[..n])
    {
      var saved := SaveWithRetry(outcomes[n], 0);
      d := Set(d, iterations[n].0, saved.0);
      assert entries[..n + 1][..n] == entries[..n];
      n := n + 1;
    }
    assert entries[..n] == entries;
  }

  /** `get_formatted_faculty_course_plans`: every faculty gets a fresh
      dictionary, filled program by program under the re-keyed names. */
  method FormattedFacultyCoursePlans(plans: FacultyPlans) returns (formatted: FacultyPlans)
    ensures formatted == Formatted(plans)
  {
    formatted := [];
    ghost var entries := FormattedEntries(plans);
    var f := 0;
    while f < |plans|
      invariant 0 <= f <= |plans|
      invariant formatted == SetAll([], entries[..f])
    {
      var facultyDict := FormatFacultyPrograms(plans[f].1);
      assert entries[f] == (plans[f].0, facultyDict);
      PrefixSnoc(entries, f);
      SetAllSnoc([], entries[..f], entries[f]);
      formatted := Set(formatted, plans[f].0, facultyDict);
      f := f + 1;
    }
    assert entries[..f] == entries;
  }

  /** The dictionary one faculty gets: its program types in turn. */
  method FormatFacultyPrograms(programTypes: ODict<string, Iterations>) returns (facultyDict: ODict<string, Iterations>)
    ensures facultyDict == FormatFaculty(programTypes)
  {
    facultyDict := [];
    var t := 0;
    while t < |programTypes|
      invariant 0 <= t <= |programTypes|
      invariant facultyDict == SetAll2([], FacultyEntries(programTypes[..t]))
    {
      facultyDict := AddPrograms(facultyDict, programTypes[t].0, programTypes[t].1);
      SetAll2Append([], FacultyEntries(programTypes[..t]), ProgramEntries(programTypes[t].0, programTypes[t].1));
      assert programTypes[..t + 1][..t] == programTypes[..t];
      t := t + 1;
    }
    assert programTypes[..t] == programTypes;
  }

  /** The programs of one program type, each filed under its program key and
      iteration when its label resolves. */
  method AddPrograms(facultyDict: ODict<string, Iterations>, programTypeName: string, programs: Iterations)
    returns (r: ODict<string, Iterations>)
    ensures r == SetAll2(facultyDict, ProgramEntries(programTypeName, programs))
  {
    r := facultyDict;
    var p := 0;
    while p < |programs|
      invariant 0 <= p <= |programs|
      invariant r == SetAll2(facultyDict, ProgramEntries(programTypeName, programs[..p]))
    {
      var assignment := ProgramAssignment(programTypeName, programs[p]);
      SetAllProgramsStep(facultyDict, programTypeName, programs, p);
      if assignment.Some? {
        var e := assignment.value;
        r := Set2(r, e.0.0, e.0.1, e.1);
      }
      p := p + 1;
    }
    assert programs[..p] == programs;
  }

  /** The scraper's state: the tree being filled. */
  class CoursePlanScraper {
    var facultyCoursePlans: FacultyPlans

    constructor ()
      ensures facultyCoursePlans == []
    {
      facultyCoursePlans := [];
    }

    /** `remove_empty_course_plans`: collect the empty program types of each
        faculty and delete them, then collect the empty faculties and delete them. */
    method RemoveEmptyCoursePlans()
      requires ValidTree(facultyCoursePlans)
      modifies this
      ensures facultyCoursePlans == Pruned(old(facultyCoursePlans))
    {
      ghost var start := facultyCoursePlans;
      var i := 0;
      while i < |facultyCoursePlans|
        invariant 0 <= i <= |facultyCoursePlans| == |start|
        invariant forall k :: 0 <= k < |start| ==>
          facultyCoursePlans[k] == if k < i then (start[k].0, DropEmpty(start[k].1)) else start[k]
      {
        var programTypesToPop := EmptyKeysOf(facultyCoursePlans[i].1);
        ghost var before := facultyCoursePlans;
        RemoveKeysAll(before[i].1, programTypesToPop);
        var k := 0;
        while k < |programTypesToPop|
          invariant 0 <= k <= |programTypesToPop|
          invariant facultyCoursePlans == before[i := (before[i].0, RemoveKeys(before[i].1, programTypesToPop[..k]))]
        {
          var p := programTypesToPop[k];
          facultyCoursePlans := facultyCoursePlans[i := (facultyCoursePlans[i].0, Remove(facultyCoursePlans[i].1, p))];
          RemoveKeysPrefix(before[i].1, programTypesToPop, k);
          k := k + 1;
        }
        RemoveEmptyKeys(start[i].1);
        i := i + 1;
      }
      assert facultyCoursePlans == DropEmptyProgramTypes(start);
      ghost var middle := facultyCoursePlans;
      KeysDropEmptyProgramTypes(start);
      var facultiesToPop := EmptyKeysOf(facultyCoursePlans);
      RemoveKeysAll(middle, facultiesToPop);
      var k := 0;
      while k < |facultiesToPop|
        invariant 0 <= k <= |facultiesToPop|
        invariant facultyCoursePlans == RemoveKeys(middle, facultiesToPop[..k])
      {
        facultyCoursePlans := Remove(facultyCoursePlans, facultiesToPop[k]);
        RemoveKeysPrefix(middle, facultiesToPop, k);
        k := k + 1;
      }
      RemoveEmptyKeys(middle);
    }
  }

  /** The keys whose values are empty, collected in order (the collecting
      loops of `remove_empty_course_plans`). */
  method EmptyKeysOf<K, A>(d: ODict<K, seq<A>>) returns (ks: seq<K>)
    ensures ks == EmptyKeys(d)
  {
    ks := [];
    var j := 0;
    while j < |d|
      invariant 0 <= j <= |d|
      invariant ks == EmptyKeys(d[..j])
    {
      EmptyKeysPrefix(d, j);
      if |d[j].1| <= 0 {
        ks := ks + [d[j].0];
      }
      j := j + 1;
    }
    assert d[..j] == d;
  }
}
