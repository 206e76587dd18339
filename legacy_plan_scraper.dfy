/** The earlier course plan scraper (`assets/py/course_plan_scraper.py`):
    it reads every program iteration page with plain HTTP requests, turns
    each `table-responsive` table into a semester of course codes and
    elective groups, and collects the iterations of every program a faculty
    offers. Fetching a page is the parameter `fetch`, from address to the
    page's tables and links; the browser's dropdowns are given as the list
    of options they show. */
module LegacyPlanScraper {
  import opened Wrappers
  import opened Text
  import opened OrderedDict
  import M = CoursePlanModel
  import Dr = Dropdown

  // ---------------------------------------------------------------- pages

  /** A link: its `href` and its text. */
  datatype Anchor = Anchor(href: string, text: string)

  /** A table cell, by the first link inside it. */
  datatype Cell = Cell(link: Option<Anchor>)

  type Row = seq<Cell>

  /** A table, as its rows, the header row included. */
  type Table = seq<Row>

  /** A fetched page: its `table-responsive` tables and all its links, in
      document order. */
  datatype Page = Page(tables: seq<Table>, links: seq<Anchor>)

  /** A scraped program iteration: one list of slots per semester. */
  type Program = seq<M.Semester>

  /** `rows[1:]`: every row after the header. */
  function Body<T>(rows: seq<T>): (r: seq<T>)
    ensures |r| == if rows == [] then 0 else |rows| - 1
    ensures forall k :: 0 <= k < |r| ==> r[k] == rows[k + 1]
  {
    if rows == [] then [] else rows[1..]
  }

  /** `row.find("a")`: the first link anywhere in the row. */
  function FirstLink(row: Row): (r: Option<Anchor>)
    ensures r.None? <==> forall k :: 0 <= k < |row| ==> row[k].link.None?
    ensures r.Some? ==> exists k :: 0 <= k < |row| && row[k].link == r
  {
    if row == [] then None
    else if row[0].link.Some? then row[0].link
    else FirstLink(row[1..])
  }

  // ---------------------------------------------------------------- elective pages

  /** `url.split("/")[-1]`. */
  function LastSegment(url: string): string {
    var pieces := Split(url, "/");
    pieces[|pieces| - 1]
  }

  /** The address of an elective group's page:
      `url.replace(url.split("/")[-1], href)`, which replaces every
      occurrence of the last segment, wherever it stands. */
  function ElectiveUrl(url: string, href: string): string {
    PyReplace(url, LastSegment(url), href)
  }

  /** The last segment of an address is the text after its last slash. */
  lemma LastSegmentOf(dir: string, page: string)
    requires '/' !in page
    ensures LastSegment(dir + "/" + page) == page
  {
    assert dir + "/" + page == dir + ['/'] + page;
    SplitLast(dir, page, '/');
  }

  /** When the page name occurs only at the end of the address, the
      replacement swaps the page for the elective's `href` in the same
      directory. */
  lemma ElectiveUrlSameDirectory(dir: string, page: string, href: string)
    requires page != [] && '/' !in page && !Contains(dir, page)
    ensures ElectiveUrl(dir + "/" + page, href) == dir + "/" + href
  {
    LastSegmentOf(dir, page);
    ReplaceLast(dir, page, href);
  }

  /** Replacing a name found only at the end, after a slash. */
  lemma ReplaceLast(dir: string, page: string, href: string)
    requires page != [] && '/' !in page && !Contains(dir, page)
    ensures PyReplace(dir + "/" + page, page, href) == dir + "/" + href
  {
    var url := dir + ['/'] + page;
    assert dir + "/" + page == url;
    IndexOfAfterSeparator(dir, '/', page);
    var i := |dir| + 1;
    assert url[..i] == dir + "/";
    assert url[i + |page|..] == [];
    assert ReplaceAll([], page, href) == [];
    assert ReplaceAll(url, page, href) == url[..i] + href + ReplaceAll(url[i + |page|..], page, href);
  }

  /** The options of an elective page: the text of the first link of every
      row after the header of the page's first table; a row without a link
      raises. A page without such a table gives no options. */
  function ElectiveOptions(page: Page): (r: Result<seq<string>>)
    ensures page.tables == [] ==> r == Ok([])
    ensures page.tables != [] ==> (r.Ok? <==> forall k :: 0 < k < |page.tables[0]| ==> FirstLink(page.tables[0][k]).Some?)
    ensures r.Ok? && page.tables != [] ==>
      (|r.value| == |Body(page.tables[0])| &&
       forall k :: 0 < k < |page.tables[0]| ==> r.value[k - 1] == FirstLink(page.tables[0][k]).value.text)
  {
    if page.tables == [] then Ok([])
    else
      var rows := Body(page.tables[0]);
      assert forall k :: 0 < k < |page.tables[0]| ==> rows[k - 1] == page.tables[0][k];
      AllOk(OptionResults(rows))
  }

  /** The option of one row of an elective table. */
  function OptionOf(row: Row): (r: Result<string>)
    ensures r.Ok? <==> FirstLink(row).Some?
  {
    match FirstLink(row)
    case None => Err("AttributeError")
    case Some(a) => Ok(a.text)
  }

  function OptionResults(rows: seq<Row>): (r: seq<Result<string>>)
    ensures |r| == |rows| && forall k :: 0 <= k < |rows| ==> r[k] == OptionOf(rows[k])
  {
    seq(|rows|, k requires 0 <= k < |rows| => OptionOf(rows[k]))
  }

  /** The loop over the rows of an elective page. */
  method ScrapeElectiveOptions(page: Page) returns (r: Result<seq<string>>)
    ensures r == ElectiveOptions(page)
  {
    if page.tables == [] {
      return Ok([]);
    }
    var rows := Body(page.tables[0]);
    var options: seq<string> := [];
    for i := 0 to |rows|
      invariant |options| == i
      invariant forall k :: 0 <= k < i ==> OptionOf(rows[k]) == Ok(options[k])
    {
      var link := FirstLink(rows[i]);
      if link.None? {
        AllOkFirstErr(OptionResults(rows), i);
        return Err("AttributeError");
      }
      options := options + [link.value.text];
    }
    AllOkValues(OptionResults(rows), options);
    return Ok(options);
  }

  // ---------------------------------------------------------------- program pages

  /** One row of a semester table: an elective group when its second cell
      holds a link (its options read from the linked page), otherwise the
      course code that is the first cell's link text. A row with fewer
      than two cells, or a course row without a link, raises. */
  function SlotOf(fetch: string -> Page, url: string, row: Row): (r: Result<M.Slot>)
    ensures |row| < 2 ==> r == Err("IndexError")
    ensures r.Ok? ==> !r.value.EmptyDict?
    ensures r.Ok? ==> (r.value.Elective? <==> row[1].link.Some?)
    ensures r.Ok? && r.value.Elective? ==>
      (r.value.title == row[1].link.value.text &&
       ElectiveOptions(fetch(ElectiveUrl(url, row[1].link.value.href))) == Ok(r.value.options))
    ensures r.Ok? && r.value.Code? ==> row[0].link.Some? && row[0].link.value.text == r.value.code
  {
    if |row| < 2 then Err("IndexError")
    else
      match row[1].link
      case Some(a) =>
        (match ElectiveOptions(fetch(ElectiveUrl(url, a.href)))
         case Err(e) => Err(e)
         case Ok(options) => Ok(M.Elective(a.text, options)))
      case None =>
        match row[0].link
        case None => Err("AttributeError")
        case Some(c) => Ok(M.Code(c.text))
  }

  function SlotResults(fetch: string -> Page, url: string, rows: seq<Row>): (r: seq<Result<M.Slot>>)
    ensures |r| == |rows| && forall k :: 0 <= k < |rows| ==> r[k] == SlotOf(fetch, url, rows[k])
  {
    seq(|rows|, k requires 0 <= k < |rows| => SlotOf(fetch, url, rows[k]))
  }

  /** A semester: one slot per row after the header, in order. */
  function SemesterOf(fetch: string -> Page, url: string, table: Table): (r: Result<M.Semester>)
    ensures r.Ok? <==> forall k :: 0 < k < |table| ==> SlotOf(fetch, url, table[k]).Ok?
    ensures r.Ok? ==>
      (|r.value| == |Body(table)| &&
       forall k :: 0 < k < |table| ==> SlotOf(fetch, url, table[k]) == Ok(r.value[k - 1]))
  {
    var rows := Body(table);
    assert forall k :: 0 < k < |table| ==> rows[k - 1] == table[k];
    AllOk(SlotResults(fetch, url, rows))
  }

  function SemesterResults(fetch: string -> Page, url: string, tables: seq<Table>): (r: seq<Result<M.Semester>>)
    ensures |r| == |tables| && forall k :: 0 <= k < |tables| ==> r[k] == SemesterOf(fetch, url, tables[k])
  {
    seq(|tables|, k requires 0 <= k < |tables| => SemesterOf(fetch, url, tables[k]))
  }

  /** `scrape_program`: one semester per `table-responsive` table of the
      iteration's page, in order, or the first exception raised. */
  function ProgramOf(fetch: string -> Page, url: string): (r: Result<Program>)
    ensures r.Ok? <==> forall k :: 0 <= k < |fetch(url).tables| ==> SemesterOf(fetch, url, fetch(url).tables[k]).Ok?
    ensures r.Ok? ==>
      (|r.value| == |fetch(url).tables| &&
       forall k :: 0 <= k < |fetch(url).tables| ==> SemesterOf(fetch, url, fetch(url).tables[k]) == Ok(r.value[k]))
  {
    AllOk(SemesterResults(fetch, url, fetch(url).tables))
  }

  /** The loop over the rows of one semester table. */
  method ScrapeSemester(fetch: string -> Page, url: string, table: Table) returns (r: Result<M.Semester>)
    ensures r == SemesterOf(fetch, url, table)
  {
    var rows := Body(table);
    var semester: M.Semester := [];
    for i := 0 to |rows|
      invariant |semester| == i
      invariant forall k :: 0 <= k < i ==> SlotOf(fetch, url, rows[k]) == Ok(semester[k])
    {
      var slot := ScrapeRow(fetch, url, rows[i]);
      if slot.Err? {
        AllOkFirstErr(SlotResults(fetch, url, rows), i);
        return Err(slot.error);
      }
      semester := semester + [slot.value];
    }
    AllOkValues(SlotResults(fetch, url, rows), semester);
    return Ok(semester);
  }

  /** The body of the row loop. */
  method ScrapeRow(fetch: string -> Page, url: string, row: Row) returns (r: Result<M.Slot>)
    ensures r == SlotOf(fetch, url, row)
  {
    if |row| < 2 {
      return Err("IndexError");
    }
    var a := row[1].link;
    if a.Some? {
      var options := ScrapeElectiveOptions(fetch(ElectiveUrl(url, a.value.href)));
      if options.Err? {
        return Err(options.error);
      }
      return Ok(M.Elective(a.value.text, options.value));
    }
    var c := row[0].link;
    if c.None? {
      return Err("AttributeError");
    }
    return Ok(M.Code(c.value.text));
  }

  /** `scrape_program`, table by table. */
  method ScrapeProgram(fetch: string -> Page, url: string) returns (r: Result<Program>)
    ensures r == ProgramOf(fetch, url)
  {
    var tables := fetch(url).tables;
    var programList: Program := [];
    for i := 0 to |tables|
      invariant |programList| == i
      invariant forall k :: 0 <= k < i ==> SemesterOf(fetch, url, tables[k]) == Ok(programList[k])
    {
      var semester := ScrapeSemester(fetch, url, tables[i]);
      if semester.Err? {
        AllOkFirstErr(SemesterResults(fetch, url, tables), i);
        return Err(semester.error);
      }
      programList := programList + [semester.value];
    }
    AllOkValues(SemesterResults(fetch, url, tables), programList);
    return Ok(programList);
  }

  // ---------------------------------------------------------------- iterations of a program

  /** The links of a program page that name an iteration: those whose
      `href` contains ".html", as (link text, page address + href). */
  function HtmlLinks(links: seq<Anchor>, url: string): seq<(string, string)>
  {
    if links == [] then []
    else
      var a := links[|links| - 1];
      HtmlLinks(links[..|links| - 1], url) + (if Contains(a.href, ".html") then [(a.text, url + a.href)] else [])
  }

  /** An entry is collected exactly when some ".html" link gives it. */
  lemma {:induction false} HtmlLinksMember(links: seq<Anchor>, url: string, e: (string, string))
    ensures e in HtmlLinks(links, url) <==>
      exists k :: 0 <= k < |links| && Contains(links[k].href, ".html") && e == (links[k].text, url + links[k].href)
  {
    if links != [] {
      var init := links[..|links| - 1];
      HtmlLinksMember(init, url, e);
      assert forall k :: 0 <= k < |init| ==> init[k] == links[k];
    }
  }

  /** The dictionary of iterations: each collected link assigned in turn,
      so a later link with the same text replaces an earlier one. */
  function IterationLinks(links: seq<Anchor>, url: string): ODict<string, string> {
    SetAll([], HtmlLinks(links, url))
  }

  /** Looking an iteration up gives the address of the last link with its
      name; the dictionary holds each name once. */
  lemma IterationLinksLookup(links: seq<Anchor>, url: string, name: string)
    ensures Get(IterationLinks(links, url), name) == LastValue(HtmlLinks(links, url), name)
    ensures Valid(IterationLinks(links, url))
  {
    GetSetAll([], HtmlLinks(links, url), name);
    SetAllValid([], HtmlLinks(links, url));
  }

  /** The loop over a program page's links. */
  method CollectIterations(links: seq<Anchor>, url: string) returns (iterations: ODict<string, string>)
    ensures iterations == IterationLinks(links, url)
  {
    iterations := [];
    for i := 0 to |links|
      invariant iterations == SetAll([], HtmlLinks(links[..i], url))
    {
      PrefixStep(links, i);
      var es := HtmlLinks(links[..i], url);
      if Contains(links[i].href, ".html") {
        var e := (links[i].text, url + links[i].href);
        assert (es + [e])[..|es|] == es;
        iterations := Set(iterations, links[i].text, url + links[i].href);
      } else {
        assert HtmlLinks(links[..i + 1], url) == es;
      }
    }
    assert links[..|links|] == links;
  }

  /** Every iteration's program, in order, where `program` gives what
      `scrape_program` returns for an address; `None` when some iteration
      raises: the source retries it from inside its own `except` handler, so
      with a fetch that fails the same way each time the retries only end in
      `RecursionError` at the interpreter's recursion limit. */
  function ProgramsOf(program: string -> Result<Program>, iterations: ODict<string, string>): Option<ODict<string, Program>>
  {
    if iterations == [] then Some([])
    else
      var last := iterations[|iterations| - 1];
      match ProgramsOf(program, iterations[..|iterations| - 1])
      case None => None
      case Some(d) =>
        match program(last.1)
        case Err(_) => None
        case Ok(p) => Some(d + [(last.0, p)])
  }

  /** The programs are all scraped exactly when no iteration raises. */
  lemma {:induction false} ProgramsOfReturn(program: string -> Result<Program>, iterations: ODict<string, string>)
    ensures ProgramsOf(program, iterations).Some? <==>
      forall k :: 0 <= k < |iterations| ==> program(iterations[k].1).Ok?
  {
    if iterations != [] {
      var init := iterations[..|iterations| - 1];
      assert forall k :: 0 <= k < |init| ==> init[k] == iterations[k];
      ProgramsOfReturn(program, init);
    }
  }

  /** Each iteration keeps its name and place, its address replaced by its
      program. */
  lemma {:induction false} ProgramsOfEntries(program: string -> Result<Program>, iterations: ODict<string, string>)
    requires ProgramsOf(program, iterations).Some?
    ensures Keys(ProgramsOf(program, iterations).value) == Keys(iterations)
    ensures forall k :: 0 <= k < |iterations| ==>
      program(iterations[k].1) == Ok(ProgramsOf(program, iterations).value[k].1)
  {
    if iterations != [] {
      var init := iterations[..|iterations| - 1];
      var last := iterations[|iterations| - 1];
      ProgramsOfEntries(program, init);
      var d := ProgramsOf(program, init).value;
      var p := program(last.1).value;
      var r := ProgramsOf(program, iterations).value;
      assert r == d + [(last.0, p)];
      KeysAppend(init, [last]);
      assert init + [last] == iterations;
      KeysAppend(d, [(last.0, p)]);
      forall k | 0 <= k < |iterations| ensures program(iterations[k].1) == Ok(r[k].1) {
        if k < |init| {
          assert r[k] == d[k] && init[k] == iterations[k];
        }
      }
    }
  }

  /** `scrape_program` as a function of the address alone. */
  function ProgramPages(fetch: string -> Page): string -> Result<Program> {
    url => ProgramOf(fetch, url)
  }

  /** `scrap_programs`: the iterations linked from a program page, each
      replaced by its scraped program. */
  function ScrapProgramsOf(fetch: string -> Page, url: string): Option<ODict<string, Program>> {
    ProgramsOf(ProgramPages(fetch), IterationLinks(fetch(url).links, url))
  }

  /** `scrap_programs` as a function of the address alone. */
  function Programs(fetch: string -> Page): string -> Option<ODict<string, Program>> {
    url => ScrapProgramsOf(fetch, url)
  }

  /** `scrap_programs`, iteration by iteration. */
  method ScrapPrograms(fetch: string -> Page, url: string) returns (r: Option<ODict<string, Program>>)
    ensures r == ScrapProgramsOf(fetch, url)
  {
    var iterations := CollectIterations(fetch(url).links, url);
    var programs: ODict<string, Program> := [];
    for i := 0 to |iterations|
      invariant ProgramsOf(ProgramPages(fetch), iterations[..i]) == Some(programs)
    {
      PrefixStep(iterations, i);
      var p := ScrapeProgram(fetch, iterations[i].1);
      assert p == ProgramPages(fetch)(iterations[i].1);
      if p.Err? {
        ProgramsOfReturn(ProgramPages(fetch), iterations);
        return None;
      }
      programs := programs + [(iterations[i].0, p.value)];
    }
    assert iterations[..|iterations|] == iterations;
    return Some(programs);
  }

  // ---------------------------------------------------------------- a faculty

  /** A dropdown entry: the links it holds, the text of its `span`, and the
      address the browser reaches by choosing it and submitting. */
  datatype Choice = Choice(links: seq<Dr.Link>, name: string, target: string)

  predicate Available(c: Choice) {
    Dr.GetDropdownOptionIfAvailable(c.links).Some?
  }

  /** The programs of a faculty, in dropdown order, skipping unavailable
      entries, where `scrape` gives what `scrap_programs` returns for an
      address; `None` when some program's scraping ends in its retries'
      `RecursionError`. */
  function FacultyEntries(scrape: string -> Option<ODict<string, Program>>, choices: seq<Choice>): Option<seq<(string, ODict<string, Program>)>>
  {
    if choices == [] then Some([])
    else
      var init := choices[..|choices| - 1];
      var last := choices[|choices| - 1];
      match FacultyEntries(scrape, init)
      case None => None
      case Some(es) =>
        if !Available(last) then Some(es)
        else
          match scrape(last.target)
          case None => None
          case Some(p) => Some(es + [(last.name, p)])
  }

  /** The faculty's programs are all scraped exactly when every available
      entry's scraping returns. */
  lemma {:induction false} FacultyEntriesReturn(scrape: string -> Option<ODict<string, Program>>, choices: seq<Choice>)
    ensures FacultyEntries(scrape, choices).Some? <==>
      forall k :: 0 <= k < |choices| && Available(choices[k]) ==> scrape(choices[k].target).Some?
  {
    if choices != [] {
      var init := choices[..|choices| - 1];
      assert forall k :: 0 <= k < |init| ==> init[k] == choices[k];
      FacultyEntriesReturn(scrape, init);
    }
  }

  /** A program name is scraped exactly when some available entry carries it. */
  lemma {:induction false} FacultyEntriesNames(scrape: string -> Option<ODict<string, Program>>, choices: seq<Choice>, name: string)
    requires FacultyEntries(scrape, choices).Some?
    ensures name in Keys(FacultyEntries(scrape, choices).value) <==>
      exists k :: 0 <= k < |choices| && Available(choices[k]) && choices[k].name == name
  {
    if choices != [] {
      var init := choices[..|choices| - 1];
      var last := choices[|choices| - 1];
      assert forall k :: 0 <= k < |init| ==> init[k] == choices[k];
      FacultyEntriesNames(scrape, init, name);
      var es := FacultyEntries(scrape, init).value;
      if Available(last) {
        KeysAppend(es, [(last.name, scrape(last.target).value)]);
      }
    }
  }

  /** What one faculty thread leaves behind: nothing when the faculty entry
      is unavailable, the `RecursionError` of a program whose retries run
      into the recursion limit, or the faculty's programs under its name. */
  datatype FacultyOutcome = Skipped | RecursionLimit | Scraped(name: string, plans: ODict<string, ODict<string, Program>>)

  function FacultyOutcomeOf(fetch: string -> Page, faculty: Choice, choices: seq<Choice>): (r: FacultyOutcome)
    ensures r.Skipped? <==> !Available(faculty)
    ensures r.Scraped? ==> r.name == faculty.name && Valid(r.plans)
  {
    if !Available(faculty) then Skipped
    else
      match FacultyEntries(Programs(fetch), choices)
      case None => RecursionLimit
      case Some(es) =>
        SetAllValid([], es);
        Scraped(faculty.name, SetAll([], es))
  }

  /** A program's plans are those of the last available entry with its name. */
  lemma FacultyPlansLookup(fetch: string -> Page, faculty: Choice, choices: seq<Choice>, name: string)
    requires FacultyOutcomeOf(fetch, faculty, choices).Scraped?
    ensures Get(FacultyOutcomeOf(fetch, faculty, choices).plans, name) == LastValue(FacultyEntries(Programs(fetch), choices).value, name)
  {
    GetSetAll([], FacultyEntries(Programs(fetch), choices).value, name);
  }

  /** `scrap_course_plan`: the faculty entry, then every program entry of
      the second dropdown. */
  method ScrapCoursePlan(fetch: string -> Page, faculty: Choice, choices: seq<Choice>) returns (r: FacultyOutcome)
    ensures r == FacultyOutcomeOf(fetch, faculty, choices)
  {
    if Dr.GetDropdownOptionIfAvailable(faculty.links).None? {
      return Skipped;
    }
    var facultyPlans: ODict<string, ODict<string, Program>> := [];
    for j := 0 to |choices|
      invariant FacultyEntries(Programs(fetch), choices[..j]).Some?
      invariant facultyPlans == SetAll([], FacultyEntries(Programs(fetch), choices[..j]).value)
    {
      PrefixStep(choices, j);
      var es := FacultyEntries(Programs(fetch), choices[..j]).value;
      if Dr.GetDropdownOptionIfAvailable(choices[j].links).None? {
        continue;
      }
      var programs := ScrapPrograms(fetch, choices[j].target);
      if programs.None? {
        FacultyEntriesReturn(Programs(fetch), choices);
        return RecursionLimit;
      }
      var e := (choices[j].name, programs.value);
      assert (es + [e])[..|es|] == es;
      facultyPlans := Set(facultyPlans, choices[j].name, programs.value);
    }
    assert choices[..|choices|] == choices;
    return Scraped(faculty.name, facultyPlans);
  }
}
