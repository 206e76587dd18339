# İTÜ curriculum scraper — a verified model

The İTÜ helper scrapes the Istanbul Technical University course catalogue
(lessons, courses, course plans, buildings and programme codes), writes it
to plain text files (`lesson_rows.txt`, `course_rows.txt`,
`course_plans.txt`), and a browser-side helper reads those files back into
`Course` objects and a faculty → programme → iteration → semesters tree.
This project models the logic that sits between the browser automation,
HTTP requests and file I/O, and proves what that logic promises.

It covers:

- **The course-plan tree** (`src/course_plan_scraper.py`):
  - the classification of semester-table rows into plain codes and electives;
  - the five-attempt retry per iteration, with its `None` sentinel;
  - the label normaliser `get_iteration_from_program_name` (year and
    language-marker search, including the regex alternative that only
    matches a literal backslash);
  - the re-keying of `get_formatted_faculty_course_plans`;
  - the in-place pruning of `remove_empty_course_plans` (a class whose
    method updates the tree);
  - dropdown slicing, the bounded retry of
    `create_dropdown_and_get_elements`, the allow-lists and
    `get_dropdown_option_if_available`.
- **The course-plan text format**:
  - the writer `save_course_plans` of `src/run.py`, one method per loop
    level, proved against a function giving the file's lines;
  - the older writer of `assets/py/run.py`;
  - the reader `#createSemesters` of `assets/js/itu_helper.js`, as a step
    function over a parse state and as methods of an `ITUHelper` class;
  - round-trip lemmas: a written semester line is read back as the same
    slots, and every written iteration (padded to eight lines) is stored by
    the reader.
- **The browser-side catalogue** (`assets/js/itu_helper.js`,
  `assets/js/course.js`):
  - `findCourseByCode` (get-or-create);
  - `#createCourses`, `#createLessons`, `connectCourses` and
    `#connectAllCourses`, and the `courses` and `semesters` getters;
  - the prerequisite parser `#createRequirementNames` ("ve"/"veya" text to
    OR-groups).
- **Work partitioning**: `split_list_into_chunks` (`src/course_scraper.py`)
  and the four-per-batch index loop of `scrap_course_plans`
  (`assets/py/course_plan_scraper.py`).
- **Row and field transforms**:
  - `extract_from_a`, `split_lesson_row`, `process_lesson_row`,
    `process_course_row`, and the sorted lesson and course files;
  - the course-code harvest and the dual-course / bilingual header
    selection of `src/course_scraper.py`, and its merge of the old course
    file;
  - the building- and programme-code rows of `src/misc_scraper.py`
    (`assets/py/misc_scraper.py` has the same logic line for line, lines
    17-53, and is covered by the same model);
  - the older scrapers in `assets/py/course_scraper.py` (header-row filter,
    SNT rows) and `assets/py/course_plan_scraper.py` (semester rows,
    elective URL rewrite, iteration links, per-faculty plans);
  - the course-file merges of the older `assets/py/run.py`
    (missing-course lines, first-line-per-code dedupe, secured-suffix merge).

Browser pages, HTTP responses and files are parameters:

- a page is a datatype of tables, rows, cells and links;
- a fetch is a function from URL to page;
- a sequence of outcomes stands for the results of repeated attempts;
- a file is its list of lines.

Python dictionaries and JavaScript objects are modelled as association
lists in insertion order (`OrderedDict.ODict`), since the files are
written in dictionary order. Raised exceptions are the `Err` case of a
`Result` that carries the exception's name.

## Model

| member | source | states |
|---|---|---|
| CoursePlanModel.CleanAll | src/course_plan_scraper.py:74 | one cleaned text per option text, in order |
| CoursePlanModel.CleanAllAt | src/course_plan_scraper.py:74 | option `i` is option text `i` with its newlines removed, then stripped |
| CoursePlanModel.ElectiveSlot | src/course_plan_scraper.py:64-83 | an elective row raises `AttributeError` exactly when its page did not load or an option row after the header has no link |
| CoursePlanModel.SlotOf | src/course_plan_scraper.py:57-85 | a row raises only `AttributeError` or `IndexError` |
| CoursePlanModel.SlotOfRaises | src/course_plan_scraper.py:57-85 | a row raises exactly when it has no cell, its first cell has no link, or it is an elective row with one cell, an unloaded page or an option row without a link; it raises `IndexError` exactly for the missing cells |
| CoursePlanModel.SlotOfRow | src/course_plan_scraper.py:57-85 | a linked non-elective row is its stripped code; an elective with no option table has no options; otherwise its options are the option table's rows after the header, their link texts cleaned, in order |
| CoursePlanModel.SemesterOf | src/course_plan_scraper.py:55-87 | a table gives a semester exactly when no row raises, and then slot `k` is the slot row `k` gives |
| CoursePlanModel.TableSemester | src/course_plan_scraper.py:55-87 | a table gives a semester exactly when it has a body whose rows give one; it raises only `AttributeError` or `IndexError` |
| CoursePlanModel.SemesterOfRaises | src/course_plan_scraper.py:55-87 | the first row that raises makes its table raise with that row's error |
| CoursePlanModel.SemesterErrors | src/course_plan_scraper.py:55-87 | a table's rows raise only `AttributeError` or `IndexError` |
| CoursePlanModel.PlanOfTables | src/course_plan_scraper.py:50-89 | a loaded page gives a plan exactly when no table raises, and then semester `i` is the one table `i` gives |
| CoursePlanModel.PlanErrors | src/course_plan_scraper.py:50-89 | a loaded page raises only `AttributeError` or `IndexError` |
| CoursePlanModel.PlanOfTablesRaises | src/course_plan_scraper.py:50-89 | the first table that raises makes the page raise with that table's error |
| CoursePlanModel.PlanOfLoadedPage | src/course_plan_scraper.py:50-89 | one semester per table and one slot per row, each the slot its row gives; the page raises when any row raises or any table has no body |
| CoursePlanModel.CoursesButtonIsPlainCode | src/course_plan_scraper.py:61-62 | the English label "Courses" does not mark an elective (the `or` yields "Dersler"), so such a row is read as a plain code |
| CoursePlanModel.SaveWithRetry | src/course_plan_scraper.py:106-115 | at most five attempts from attempt 0; a stored plan is what the last attempt returned and every earlier attempt raised; `None` only after all attempts raised |
| CoursePlanModel.RetryOutcome | src/course_plan_scraper.py:106-115 | between one and five attempts; the sentinel `None` is stored exactly when all five raise |
| CoursePlanModel.ScrapedIterationLookup | src/course_plan_scraper.py:99-122 | after scraping, a listed name maps to the result of the last row that lists it |
| CoursePlanModel.ProgramEntriesExact | src/course_plan_scraper.py:325-351 | each program gives exactly one assignment, under `"{name} ({type})"` with `"( ("` collapsed and its resolved iteration, and its content unchanged |
| CoursePlanModel.FormattedKeys | src/course_plan_scraper.py:321-323 | re-keying keeps every faculty of the input, in order, even one left without programs |
| CoursePlanModel.FormatFacultyLookup | src/course_plan_scraper.py:325-351 | the content under a (key, iteration) pair is that of the last program resolving to it; other pairs are absent |
| CoursePlanModel.KeysDropEmptyProgramTypes | src/course_plan_scraper.py:276-284 | the first pruning pass keeps the faculties and their order |
| CoursePlanModel.PrunedHasNoEmpty | src/course_plan_scraper.py:274-294 | after pruning no faculty and no program type is empty |
| CoursePlanModel.PrunedLookup | src/course_plan_scraper.py:274-294 | a faculty survives exactly when it has a non-empty program type, and then holds exactly its non-empty program types, untouched |
| CoursePlanModel.PruneIdempotent | src/course_plan_scraper.py:274-294 | pruning twice equals pruning once |
| CoursePlanScraper.ScrapeTable | src/course_plan_scraper.py:55-87 | the row loop gives the table's semester or its error |
| CoursePlanScraper.ScrapeIterationCoursePlan | src/course_plan_scraper.py:43-89 | a page that did not load gives the placeholder `[[{}]]`; a loaded page is read table by table |
| CoursePlanScraper.ScrapeTables | src/course_plan_scraper.py:50-89 | the table loop gives one semester per table, or the first error, `AttributeError` for a table without a body |
| CoursePlanScraper.ScrapIterations | src/course_plan_scraper.py:91-122 | an unloaded list gives no iterations; a row without two cells or a first-cell link raises `IndexError`; otherwise every listed name is stored with its retried result, the later one winning |
| CoursePlanScraper.CollectIterationLinks | src/course_plan_scraper.py:99-104 | raises `IndexError` exactly when some row lacks its two cells or its first-cell link; otherwise one (stripped name, site prefix + href) pair per row, in order |
| CoursePlanScraper.SaveIterations | src/course_plan_scraper.py:106-120 | the save loop stores each pair's retried result under its name |
| CoursePlanScraper.FormattedFacultyCoursePlans | src/course_plan_scraper.py:321-353 | the nested loops build the re-keyed tree |
| CoursePlanScraper.FormatFacultyPrograms | src/course_plan_scraper.py:323-351 | one faculty's dictionary, program type by program type |
| CoursePlanScraper.AddPrograms | src/course_plan_scraper.py:325-351 | one program type's programs filed under their keys and iterations |
| CoursePlanScraper.CoursePlanScraper.constructor | src/course_plan_scraper.py:35-41 | the scraper starts with an empty tree |
| CoursePlanScraper.CoursePlanScraper.RemoveEmptyCoursePlans | src/course_plan_scraper.py:274-294 | the two passes of deletions leave the tree pruned |
| CoursePlanScraper.EmptyKeysOf | src/course_plan_scraper.py:277-280 | the collecting loop lists the keys whose values are empty, in order |
| Dropdown.GetDropdownOptions | src/course_plan_scraper.py:137-154 | `None` when the list was not found or has no option left; otherwise a non-empty list, with exactly the first option dropped under `remove_first` |
| Dropdown.FirstUsableRead | src/course_plan_scraper.py:261-272 | the first of the first `n` readings that is usable; every earlier reading is unusable |
| Dropdown.CreateDropdownAndGetElements | src/course_plan_scraper.py:261-272 | at most `max_retries` attempts; the first usable reading is returned, with no stale element; `None` after all attempts fail; no attempt at all raises `UnboundLocalError` |
| Dropdown.GetDropdownOptionIfAvailable | src/course_plan_scraper.py:406-414 | `None` exactly when there is no link, the link's role is not "option", or its text holds "Seçiniz"; otherwise the first link |
| Dropdown.KeepAllowed | src/course_plan_scraper.py:181-185 | a name is kept exactly when it is in the allow-list |
| Dropdown.KeepAllowedAppend | src/course_plan_scraper.py:181-185 | the filter keeps order and repeats: a concatenation keeps what each part keeps, one after the other, and one name is kept exactly when allowed |
| ProgramLabel.FindYearFrom | src/course_plan_scraper.py:305 | the leftmost four-digit run at or after a position |
| ProgramLabel.FindYear | src/course_plan_scraper.py:305 | the leftmost four-digit run of the label, if any |
| ProgramLabel.FindMarkerFrom | src/course_plan_scraper.py:313 | the leftmost language-marker match at or after a position |
| ProgramLabel.FindMarker | src/course_plan_scraper.py:313 | the leftmost match of `%` + 2-3 digits, or of a literal backslash + "d{2,3}%" |
| ProgramLabel.IterationFromProgramName | src/course_plan_scraper.py:300-319 | whenever an iteration is found, a program name is found too |
| ProgramLabel.IterationStartsWithYear | src/course_plan_scraper.py:305-307 | with a year, the iteration is the stripped suffix from the first four-digit run, non-empty and starting with that digit |
| ProgramLabel.ResolveTotal | src/course_plan_scraper.py:327-340 | every label resolves: the skip branch is unreachable |
| ProgramLabel.NoYearNoMarker | src/course_plan_scraper.py:332-334 | with neither a year nor a marker, the label itself is the name, under "Tüm Öğrenciler İçin" |
| ProgramLabel.MarkerNoYear | src/course_plan_scraper.py:312-340 | with a marker and no year, the name is the stripped part before the marker, under the default iteration |
| ProgramLabel.NameFromPartBeforeIteration | src/course_plan_scraper.py:312-317 | for a label without leading whitespace, the name is cut from the stripped part before the iteration, at the marker when there is one |
| ProgramLabel.ExampleResolve | src/course_plan_scraper.py:297-298 | the commented example label resolves to the name up to "(" and the iteration "2010-2011 / Güz Dönemi Sonrası" |
| ProgramLabel.ExampleKey | src/course_plan_scraper.py:342-346 | the example's key collapses `"( ("` into `"("` |
| ProgramLabel.FizikExample | src/course_plan_scraper.py:297-298 | the example gives the key "Fizik Mühendisliği Lisans Programı (100% İngilizce Program)" and the iteration "2010-2011 / Güz Dönemi Sonrası" |
| PlanFormat.NoNewlines | src/run.py:89 | the result holds no newline and no character the input lacks |
| PlanFormat.CleanOptions | src/run.py:96-97 | one newline-free option per option, in order |
| PlanFormat.ElectiveClosed | src/run.py:91-102 | an elective is written as `[` … `)]`, with or without options |
| PlanFormat.ElectiveTextOf | src/run.py:91-102 | the options loop writes `[title*(a\|b\|…)]`, or `[title*()]` with no option |
| PlanFormat.SlotTextRaises | src/run.py:86-88 | a dict without a key makes the whole semester raise `IndexError` |
| PlanFormat.SemesterLineOf | src/run.py:84-109 | the slots loop writes the slot texts joined by `=`, with no trailing separator, or raises |
| PlanFormat.PaddingEntry | src/run.py:110-111 | an iteration of `k < 8` semesters is closed by `8 - k` blank lines |
| PlanFormat.AppendSemesters | src/run.py:82-111 | a `None` iteration raises `TypeError`; otherwise its semester lines, then the padding |
| PlanFormat.AppendIteration | src/run.py:79-111 | `### name`, then the iteration's lines |
| PlanFormat.AppendProgram | src/run.py:77-111 | `## name`, then each iteration in dictionary order |
| PlanFormat.AppendFaculty | src/run.py:74-111 | `# name`, then each program in dictionary order |
| PlanFormat.SaveCoursePlans | src/run.py:62-115 | the written text is that of the file's lines, faculty by faculty, or the first error |
| PlanFormat.SlotTextsAsIntended | src/run.py:85-107 | the slot loop raises exactly on a dict without a key, and otherwise writes the intended texts |
| PlanFormat.SemesterLineRaises | src/run.py:84-109 | a semester line raises `IndexError` exactly when it holds a key-less dict; otherwise it is the intended line |
| PlanFormat.IterationAsIntended | src/run.py:82-111 | without key-less dicts, an iteration's lines are the intended ones |
| PlanFormat.SemesterLinesAsIntended | src/run.py:83-109 | without key-less dicts, the semester lines are the intended ones |
| PlanFormat.UnreadablePageRaises | src/run.py:82-88 | an unreadable page is stored as `[[{}]]` and makes the whole file raise `IndexError`; the intended writer gives eight blank lines |
| PlanFormat.IterationLinesIntended | src/run.py:82-111 | the intended lines are one per semester, then the padding |
| PlanFormat.SemesterLinesCount | src/run.py:83-109 | one line per semester |
| PlanFormat.IterationLineCount | src/run.py:110-111 | a written iteration takes `max(k, 8)` lines, the ones after the semesters blank |
| PlanFormat.ElectiveTextFree | src/run.py:89-102 | an elective's text holds no newline |
| PlanFormat.SemesterLineFree | src/run.py:84-109 | newline-free slots make a newline-free semester line |
| PlanFormat.IterationFree | src/run.py:79-111 | newline-free names and slots make newline-free iteration lines |
| PlanFormat.ProgramFree | src/run.py:77-111 | the same for a program block |
| PlanFormat.FacultyFree | src/run.py:74-111 | the same for a faculty block |
| PlanFormat.CoursePlanFileLines | src/run.py:72-115 | splitting the written text on newlines gives the lines back, then the empty piece after the last newline |
| LegacyPlanFormat.LegacyElectiveTextOf | assets/py/run.py:176-185 | the older options loop writes `[title*(a\|b\|…)]`, and only `[title*(` with no option |
| LegacyPlanFormat.LegacySemesterLineOf | assets/py/run.py:173-192 | the older slots loop joins the slot texts by `=`; a key-less dict writes nothing |
| LegacyPlanFormat.LegacyAppendIteration | assets/py/run.py:171-192 | `### name`, then one line per semester, with no padding |
| LegacyPlanFormat.LegacyAppendProgram | assets/py/run.py:169-192 | `## name`, then each iteration |
| LegacyPlanFormat.LegacyAppendFaculty | assets/py/run.py:166-192 | `# name`, then each program |
| LegacyPlanFormat.LegacySaveCoursePlans | assets/py/run.py:153-196 | faculties are written in the given order, each looked up in the tree |
| LegacyPlanFormat.LegacyProgramsComplete | assets/py/run.py:169-192 | the blocks of a faculty's programs never raise |
| LegacyPlanFormat.LegacyMissingFaculty | assets/py/run.py:166-169 | the older writer completes exactly when every faculty of the order is in the tree, and otherwise raises `KeyError` |
| LegacyPlanFormat.UnclosedElective | assets/py/run.py:176-185 | an elective without options is left as `[title*(`, with no closing bracket; the current writer closes it |
| LegacyPlanFormat.LegacyAgrees | assets/py/run.py:173-192 | on semesters free of newlines, option-less electives and key-less dicts, both writers write the same line |
| ItuCourses.Find | assets/js/itu_helper.js:141-154 | `null` exactly for an unregistered empty code; otherwise a course with that code; the catalogue only grows, by at most one generated course |
| ItuCourses.FindTwice | assets/js/itu_helper.js:141-154 | a second lookup of the same code finds the same course and creates nothing |
| ItuCourses.FindGrows | assets/js/itu_helper.js:142-149 | a known code leaves the catalogue unchanged; an unknown non-empty one appends exactly its "Auto Generated Course" |
| ItuCourses.CourseLines | assets/js/itu_helper.js:89-92 | the lines read are non-empty and do not start with `#` |
| ItuCourses.CreatedCoursesLines | assets/js/itu_helper.js:84-98 | one course per read line, in order; a `TypeError` exactly when a line has fewer than three fields |
| ItuCourses.RegisterValid | assets/js/itu_helper.js:23-25 | the dictionary knows exactly the catalogue's codes, each naming the last course with it |
| ItuCourses.AddLesson | assets/js/itu_helper.js:107-121 | one lesson line keeps the catalogue well formed |
| ItuCourses.AddLessons | assets/js/itu_helper.js:105-122 | the lesson loop keeps the catalogue well formed |
| ItuCourses.AddLessonEffect | assets/js/itu_helper.js:107-121 | a line whose code is empty and unknown changes nothing; otherwise its course is found or generated and gets the lesson and `majorRest`, and no other course changes |
| ItuCourses.AddLessonsKeep | assets/js/itu_helper.js:105-122 | lessons never change the code or the requirement names of a known course, and only add courses |
| ItuCourses.BlankLessonLineGenerates | assets/js/itu_helper.js:106-120 | the blank last line of a lesson file generates a course coded "undefined" with a lesson of blanks |
| ItuCourses.AddLessonIntended | assets/js/itu_helper.js:107-121 | the intended step keeps the catalogue well formed |
| ItuCourses.AddLessonsIntended | assets/js/itu_helper.js:105-122 | the intended loop keeps the catalogue well formed |
| ItuCourses.LessonsIntended | assets/js/itu_helper.js:105-122 | under the intended step a trailing blank line changes nothing, and `majorRest` is the eleventh field |
| ItuCourses.ConnectGroup | assets/js/course.js:74-78 | looking up one group keeps the catalogue well formed, only adds codes, and keeps the empty code's status |
| ItuCourses.ConnectGroupCodes | assets/js/course.js:74-78 | a group holds, in order, a course for each name whose lookup is not `null` |
| ItuCourses.ConnectGroups | assets/js/course.js:72-79 | one group per name group |
| ItuCourses.ConnectGroupsCodes | assets/js/course.js:72-79 | each group keeps exactly the non-null lookups of its names, in order |
| ItuCourses.Connect | assets/js/course.js:70-80 | connecting a course keeps the catalogue well formed; courses generated meanwhile have no requirements |
| ItuCourses.ConnectEffect | assets/js/course.js:70-80 | the course gets one requirement group per name group, holding the courses of its non-null names; no other known course changes |
| ItuCourses.ConnectAll | assets/js/itu_helper.js:127-131 | connecting all courses keeps the catalogue well formed |
| ItuCourses.ConnectAllShape | assets/js/itu_helper.js:127-131 | no code changes, courses past the first `n` are untouched, generated courses keep empty requirements |
| ItuCourses.ConnectAllAt | assets/js/itu_helper.js:127-131 | each of the first `n` courses is connected as `connectCourses` promises |
| ItuCourses.ConnectKeepsConnected | assets/js/course.js:70-80 | connecting one course leaves another connected course connected |
| ItuCourses.ConnectAllEffect | assets/js/itu_helper.js:127-131 | every course present when `forEach` starts is connected |
| ItuCourses.AutoCourseNames | assets/js/itu_helper.js:145-146 | a generated course has the requirement names of a blank text, `[[" undefined"]]` |
| ItuCourses.BlankRequirementsConnectUndefined | assets/js/course.js:70-80 | such a course is connected to one course coded " undefined" |
| ItuCourses.CoursesLoaded | assets/js/itu_helper.js:20-31 | the `courses` getter keeps the catalogue well formed |
| ItuCourses.CoursesLoadedError | assets/js/itu_helper.js:20-31 | a loaded catalogue is returned as it is; a first load fails exactly when a course line has fewer than three fields |
| ItuCourses.CoursesLoadedEffect | assets/js/itu_helper.js:20-31 | a first load gives one course per course line, in order, and every course connected |
| ItuSemesters.Header | assets/js/itu_helper.js:170-191 | a header keeps the catalogue well formed and only grows it |
| ItuSemesters.Options | assets/js/itu_helper.js:204-206 | one lookup per option name, `null` kept |
| ItuSemesters.Piece | assets/js/itu_helper.js:196-215 | a slot keeps the catalogue well formed and only grows it |
| ItuSemesters.Pieces | assets/js/itu_helper.js:195-216 | the slots of a line keep the catalogue well formed and only grow it |
| ItuSemesters.Store | assets/js/itu_helper.js:220-221 | a store keeps the catalogue well formed |
| ItuSemesters.Plain | assets/js/itu_helper.js:192-222 | a semester line keeps the catalogue well formed |
| ItuSemesters.Step | assets/js/itu_helper.js:169-222 | one line keeps the catalogue well formed |
| ItuSemesters.Run | assets/js/itu_helper.js:168-223 | the loop keeps the catalogue well formed |
| ItuSemesters.StoreEffect | assets/js/itu_helper.js:220-221 | a store succeeds exactly when the current faculty and program exist, and then sets only the current iteration to the current list |
| ItuSemesters.HeaderEffect | assets/js/itu_helper.js:170-191 | every header empties the current list; level 1 makes its faculty empty; level 2 fails exactly without a current faculty and opens an empty program; level 3 names the iteration |
| ItuSemesters.ProgramDropped | assets/js/itu_helper.js:178-188 | a level-2 header drops the previous program exactly when it has no iteration, and keeps every other program and faculty |
| ItuSemesters.EmptySlotSkipped | assets/js/itu_helper.js:211-212 | an empty plain slot is skipped unless the empty code is registered |
| ItuSemesters.PlainEffect | assets/js/itu_helper.js:193-221 | a semester line adds exactly one semester; it is stored once the list holds eight, never before |
| ItuSemesters.StepStored | assets/js/itu_helper.js:218-221 | once eight semesters are stored, later pushes show in the stored entry, and storing cannot fail |
| ItuSemesters.RunStored | assets/js/itu_helper.js:168-223 | a run keeps the stored entry equal to the current list |
| ItuSemesters.StepKeepsOpen | assets/js/itu_helper.js:178-188 | only a level-1 or level-2 header closes an open program, so the last program of a faculty is never dropped |
| ItuSemesters.SemestersLoaded | assets/js/itu_helper.js:47-54 | the `semesters` getter keeps the catalogue well formed |
| ItuSemesters.PiecesStop | assets/js/itu_helper.js:195-216 | once a slot raises, the later slots change nothing |
| ItuSemesters.RunStops | assets/js/itu_helper.js:168-223 | once a line raises, the later lines change nothing |
| ItuHelper.ITUHelper.constructor | assets/js/itu_helper.js:6-13 | an empty catalogue, tree and line lists |
| ItuHelper.ITUHelper.Fetched | assets/js/itu_helper.js:60-73 | the three files are split into lines; nothing else changes |
| ItuHelper.ITUHelper.FindCourseByCode | assets/js/itu_helper.js:141-154 | the lookup and the new catalogue are those of `Find` |
| ItuHelper.ITUHelper.CreateCourses | assets/js/itu_helper.js:84-99 | the courses and the error are those of `CreatedCourses`, with an empty dictionary |
| ItuHelper.ITUHelper.RegisterCourses | assets/js/itu_helper.js:23-25 | the dictionary is built over the courses |
| ItuHelper.ITUHelper.CreateLessons | assets/js/itu_helper.js:105-122 | the catalogue becomes that of `AddLessons` |
| ItuHelper.ITUHelper.ConnectGroupMethod | assets/js/course.js:74-78 | one requirement group, as `ConnectGroup` |
| ItuHelper.ITUHelper.ConnectCourses | assets/js/course.js:70-80 | one course connected, as `Connect` |
| ItuHelper.ITUHelper.ConnectAllCourses | assets/js/itu_helper.js:127-131 | the courses present at the start connected, as `ConnectAll` |
| ItuHelper.ITUHelper.Courses | assets/js/itu_helper.js:20-31 | the getter's catalogue and error are those of `CoursesLoaded` |
| ItuHelper.ITUHelper.LookUpOptions | assets/js/itu_helper.js:202-206 | the options of a group slot, as `Options` |
| ItuHelper.ITUHelper.ParsePiece | assets/js/itu_helper.js:196-215 | one slot, as `Piece` |
| ItuHelper.ITUHelper.ParseSemester | assets/js/itu_helper.js:193-216 | one semester line's slots, as `Pieces` |
| ItuHelper.ITUHelper.ReadHeader | assets/js/itu_helper.js:170-191 | a header line, as `Header` |
| ItuHelper.ITUHelper.ReadSemesterLine | assets/js/itu_helper.js:192-222 | a semester line, as `Plain` |
| ItuHelper.ITUHelper.ReadLine | assets/js/itu_helper.js:169-222 | one raw line, as `Step` |
| ItuHelper.ITUHelper.CreateSemesters | assets/js/itu_helper.js:160-224 | the catalogue, tree and error are those of `CreatedSemesters` |
| ItuHelper.ITUHelper.Semesters | assets/js/itu_helper.js:47-54 | the getter's results are those of `SemestersLoaded` |
| CourseRequirements.LineWords | assets/js/course.js:39-40 | every line has at least one word |
| CourseRequirements.Step | assets/js/course.js:42-61 | after any line there is at least one group |
| CourseRequirements.Groups | assets/js/course.js:38-62 | there is a group exactly when there is a line |
| CourseRequirements.CreateRequirementNames | assets/js/course.js:17-63 | the loop gives the groups of `RequirementNames` |
| CourseRequirements.NoRequirements | assets/js/course.js:23-29 | no group exactly for a text holding "Yok", "planının", "Diğer", "Özel" or "için" |
| CourseRequirements.GroupsNames | assets/js/course.js:38-62 | the groups hold every name of the lines, in order; there is one group for the first line and one more per "ve" line |
| CourseRequirements.GroupsNonEmpty | assets/js/course.js:45-61 | no group is empty |
| CourseRequirements.FirstGroup | assets/js/course.js:45-48 | the first group opens with the first line's first two words |
| CourseRequirements.FirstLine | assets/js/course.js:45-48 | the first line opens a group of its own name |
| CourseRequirements.OrLine | assets/js/course.js:57-58 | a "veya" line appends its name to the last group |
| CourseRequirements.AndLine | assets/js/course.js:60-61 | a "ve" line opens a new group with its name |
| CourseRequirements.BlankLine | assets/js/course.js:31-37 | the blank line left between "\n" and "veya" adds nothing |
| CourseRequirements.CommentExample | assets/js/course.js:18 | from its split lines on, the commented example gives the four MAT codes in one group and the two EHB codes in another |
| CourseRequirements.BlankTextNamesUndefined | assets/js/course.js:37-46 | a blank text gives `[[" undefined"]]` |
| CourseRequirements.IntendedBlank | assets/js/course.js:20-46 | the intended reading gives no group for a blank text and the same groups otherwise |
| RoundTrip.BracketsDropped | assets/js/itu_helper.js:199 | removing the first `[` and the first `]` recovers the elective's inner text |
| RoundTrip.StarSplit | assets/js/itu_helper.js:200 | splitting on `*` separates the title from the option list |
| RoundTrip.ParensDropped | assets/js/itu_helper.js:201 | removing the first `(` and `)` recovers the joined options |
| RoundTrip.ElectiveParts | assets/js/itu_helper.js:198-202 | a written elective reads back as its title and options; one with no option reads as the single empty option |
| RoundTrip.SlotTextFits | src/run.py:86-107 | a slot of plain names is written without error, without separators, header marks or outer spaces, and starts with `[` exactly when it is an elective |
| RoundTrip.OptionsFound | assets/js/itu_helper.js:204-206 | each option name is looked up to a course with that code, `null` only for the empty name |
| RoundTrip.PieceRecovers | assets/js/itu_helper.js:196-215 | one written slot reads back as an entry naming what it holds |
| RoundTrip.PiecesRecover | assets/js/itu_helper.js:194-216 | the written slots of a semester read back in order |
| RoundTrip.SemesterRoundTrip | assets/js/itu_helper.js:169-218 | a written semester line is kept by the cleaning, is not a header, and reads back as entries naming its slots |
| RoundTrip.LineKept | assets/js/itu_helper.js:169-170 | slot texts joined by `=` are neither cleaned nor taken for a header |
| RoundTrip.SemesterStep | assets/js/itu_helper.js:192-221 | inside an open program, one written semester line appends one semester that names the written one, without error |
| RoundTrip.RunSemesters | assets/js/itu_helper.js:168-223 | written semester lines append one semester each, in order |
| RoundTrip.HeaderStep | assets/js/itu_helper.js:170-191 | an iteration header starts an empty semester list under the iteration's name |
| RoundTrip.SemesterLines | src/run.py:83-109 | semesters of plain names are written one line each, without error |
| RoundTrip.PaddedLines | src/run.py:109-111 | the padding lines are the lines of empty semesters, so an iteration is written as at least eight semester lines |
| RoundTrip.PaddedRead | assets/js/itu_helper.js:218-221 | reading the padded lines stores the iteration |
| RoundTrip.PaddedRun | assets/js/itu_helper.js:168-223 | an iteration of plain semesters is written without error, and reading its lines from an empty list stores it |
| RoundTrip.IterationRoundTrip | assets/js/itu_helper.js:160-224 | every written iteration is stored under its name: at least eight semesters, the written ones naming their slots, then the padding as empty semesters |
| WorkPartition.ChunkBounds | src/course_scraper.py:175-186 | chunk boundaries grow by `len // n`, plus one for the first `len % n` chunks, and end at the list's length |
| WorkPartition.Chunk | src/course_scraper.py:182-186 | chunk `i` has `len // n + 1` items when `i < len % n`, and `len // n` otherwise |
| WorkPartition.SplitIntoChunks | src/course_scraper.py:173-188 | exactly `n` chunks, each the slice between its boundaries, whose concatenation is the list |
| WorkPartition.Batches | assets/py/course_plan_scraper.py:194-204 | `ceil(n / 4)` batches; batch `j` launches `4j` up to `min(4j+3, n-1)`, between one and four indices |
| WorkPartition.BatchesPartition | assets/py/course_plan_scraper.py:194-204 | every index below `n` is launched in exactly one batch |
| WorkPartition.BatchesFlatten | assets/py/course_plan_scraper.py:194-204 | the batches together launch every index once, in order |
| RowFormat.ExtractFromAPlain | src/run.py:13-16 | a cell without `>` is returned unchanged |
| RowFormat.ExtractFromALink | src/run.py:13-16 | otherwise the stripped text between the first `>` and the next tag bracket, free of both brackets |
| RowFormat.ExtractFromAIdempotent | src/run.py:13-16 | extracting twice equals extracting once |
| RowFormat.LessonCellsSeparated | src/run.py:19-21 | the cells are the texts between the `<td>` openers, none holding `<td>` |
| RowFormat.LessonFields | src/run.py:27-37 | eleven fields: cells 0, 1, 3, 4, 5, 6, 7, 8, 9, 10 and 12, with the link text of cells 1, 5 and 12 |
| RowFormat.LessonLineFields | src/run.py:24-39 | a line is written exactly for a row of thirteen cells or more; splitting it on `\|` gives the fields back |
| RowFormat.LessonLineRead | src/run.py:24-39 | the page reads the written lesson line unchanged and splits it into the row's fields |
| RowFormat.MajorRestIsEnrolled | assets/js/itu_helper.js:112 | the page takes `majorRest` from the tenth field, which the writer fills with the enrolled count |
| RowFormat.MajorRestIntended | assets/js/itu_helper.js:112 | the intended reading gives the major restriction, the eleventh field |
| RowFormat.CourseFields | assets/py/run.py:114-117 | four fields: the code's link text, title, requirements and class restrictions |
| RowFormat.CourseLineRead | assets/py/run.py:108-119 | the page reads a written course line back as the course of the row's code, title, requirements and class restrictions |
| RowFormat.StrLeTotal | src/run.py:47 | any two lines are ordered one way or the other |
| RowFormat.StrLeAntisymmetric | src/run.py:47 | two lines each ordered before the other are equal |
| RowFormat.SortSorted | src/run.py:47 | the sorted lines are sorted and a permutation of the input |
| RowFormat.LessonLines | src/run.py:46 | one line per row, or an error |
| RowFormat.LessonLinesOk | src/run.py:46 | the lines are produced exactly when every row has thirteen cells |
| RowFormat.LessonLinesEach | src/run.py:46 | line `k` is row `k`'s processed line and a newline |
| RowFormat.LessonFileSorted | src/run.py:42-49 | the lesson file holds the row lines, sorted, and is written exactly when every row has thirteen cells |
| RowFormat.CourseFileSorted | src/run.py:52-59 | the course file holds every row once per occurrence, newline-ended, in sorted order |
| CourseScraper.LessonFileCodes | src/course_scraper.py:25-27 | at most one code per lessons-file line |
| CourseScraper.OldFileCodes | src/course_scraper.py:42-44 | at most one code per old course-file line |
| CourseScraper.PlanRows | src/course_scraper.py:30-32 | the non-header lines, at most one per line |
| CourseScraper.CodeSet | src/course_scraper.py:46 | exactly the stripped non-empty codes, each stripped and once |
| CourseScraper.GetCourseCodes | src/course_scraper.py:21-46 | the codes of the lessons, curriculum and old course files, as a set of stripped non-empty codes |
| CourseScraper.PlanFileCodes | src/course_scraper.py:33-39 | the row loop gives the codes of every curriculum row, in order |
| CourseScraper.RowFileCodes | src/course_scraper.py:34-39 | the cell loop gives the codes of every cell, in order |
| CourseScraper.ElectiveCellCodes | src/course_scraper.py:36-37 | a written elective cell gives back its options |
| CourseScraper.OptionsText | src/course_scraper.py:37 | removing `(`, `)` and `]` from `(j)]` leaves `j` |
| CourseScraper.RowCodesOfCells | src/course_scraper.py:33 | a row of `=`-joined cells gives the codes of its cells, in order |
| CourseScraper.LessonLineCode | src/course_scraper.py:27 | the code harvested from a written lesson line is its row's course code |
| CourseScraper.CourseLineCode | src/course_scraper.py:44 | the code harvested from a scraped course line is the code it starts with |
| CourseScraper.CourseIndex | src/course_scraper.py:70-74 | the first code containing the searched code, or -1 when none does |
| CourseScraper.FindCourseIndex | src/course_scraper.py:70-74 | the loop stops at the first hit |
| CourseScraper.ScrapHeader | src/course_scraper.py:63-85 | the code, name and language cells are selected as `SelectCourse` describes |
| CourseScraper.DualTwoCourses | src/course_scraper.py:68-80 | for `a-b`, the first course when its code contains the searched code, else the second, with its name and language |
| CourseScraper.DualWithoutNamesRaises | src/course_scraper.py:76-80 | the second course of a two-course page whose name is not `/`-separated raises `IndexError` |
| CourseScraper.DualNameIsSingle | src/course_scraper.py:68-85 | the course taken from a two-course page has a single name, so the language step changes nothing |
| CourseScraper.Bilingual | src/course_scraper.py:83-85 | for `a/b`, the first name when the language says "Türkçe", the second otherwise |
| CourseScraper.MergeStep | src/course_scraper.py:215-228 | an old line is appended stripped only when non-empty and holding `\|` |
| CourseScraper.MergeOld | src/course_scraper.py:212-228 | the scraped lines come first and are kept |
| CourseScraper.MergeOldCourses | src/course_scraper.py:212-228 | the loop gives the merge |
| CourseScraper.FindKnown | src/course_scraper.py:221-225 | the inner search finds whether some line starts with `code\|` |
| CourseScraper.MergeOldStep | src/course_scraper.py:215-228 | an old line is appended exactly when it is non-empty, holds `\|` and no line so far starts with its code and `\|` |
| CourseScraper.MergeOldAdded | src/course_scraper.py:215-228 | everything added is a non-empty, stripped old line holding `\|` |
| CourseScraper.MergeOldKnown | src/course_scraper.py:215-228 | after the merge the code of every usable old line is known |
| MiscScraper.WithCampus | src/misc_scraper.py:22-23 | the name cell always names a campus afterwards |
| MiscScraper.Campus | src/misc_scraper.py:27-29 | the campus never holds `)` |
| MiscScraper.BuildingOf | src/misc_scraper.py:20-30 | a row raises `IndexError` exactly when it has fewer than two cells; the campus holds no `)` |
| MiscScraper.BuildingFrom | src/misc_scraper.py:25-30 | the campus of a code and name cell holds no `)` |
| MiscScraper.BuildingsRows | src/misc_scraper.py:18-34 | the table gives its buildings exactly when every row has two cells, and then one building per row, in order |
| MiscScraper.ScrapBuildingCodes | src/misc_scraper.py:13-34 | the output is one `code\|building\|campus` line per row, or the error of a short row |
| MiscScraper.BuildingsShortRow | src/misc_scraper.py:20-22 | one short row makes the whole table raise |
| MiscScraper.BuildingsStep | src/misc_scraper.py:19-32 | one more row adds its building's line |
| MiscScraper.ScrapBuildingRow | src/misc_scraper.py:20-32 | the loop body gives the row's building |
| MiscScraper.NamedBuilding | src/misc_scraper.py:22-30 | a name cell `b (c)` gives building `b` on campus `c` |
| MiscScraper.CampusOfNamed | src/misc_scraper.py:27-29 | the campus of `a(c)` is `c` |
| MiscScraper.BuildingNameOfNamed | src/misc_scraper.py:30 | removing `(c)` from `b (c)` and stripping leaves `b` |
| MiscScraper.DefaultBuilding | src/misc_scraper.py:22-30 | a name without `(` gets campus "Ayazağa" and keeps its text |
| MiscScraper.NamedBuildingFrom | src/misc_scraper.py:25-30 | stripped cells `code` and `b (c)` give building `b` on campus `c` |
| MiscScraper.DefaultBuildingRow | src/misc_scraper.py:20-30 | a row whose name names no campus gives the building on "Ayazağa" |
| MiscScraper.ProgrammeOf | src/misc_scraper.py:43-47 | a row gives a programme exactly when it has two cells |
| MiscScraper.Programmes | src/misc_scraper.py:42-47 | at most one programme per row |
| MiscScraper.ScrapProgrammeCodes | src/misc_scraper.py:36-49 | the output is the lines of the programmes, in row order |
| MiscScraper.ScrapProgrammeRow | src/misc_scraper.py:43-47 | the loop body gives the row's programme |
| MiscScraper.ProgrammesStep | src/misc_scraper.py:42-47 | one more row adds its programme, if it gives one |
| MiscScraper.ProgrammesTextStep | src/misc_scraper.py:42-47 | one more row adds its programme's line, if any |
| MiscScraper.ProgrammeRow | src/misc_scraper.py:43-47 | a two-cell row gives its two stripped texts |
| MiscScraper.ProgrammeLineFields | src/misc_scraper.py:47 | a programme line splits back into its code and name |
| MiscScraper.ProgrammesRows | src/misc_scraper.py:42-47 | a programme is listed exactly when some two-cell row gives it |
| LegacyCourseScraper.CurrentTable | assets/py/course_scraper.py:16-20 | at most one row per table row |
| LegacyCourseScraper.CurrentTableRows | assets/py/course_scraper.py:16-20 | a table gives exactly the rows whose class is not `table-baslik` |
| LegacyCourseScraper.SntLines | assets/py/course_scraper.py:63-66 | the kept link texts hold a space and no non-breaking space |
| LegacyCourseScraper.SntHasSpace | assets/py/course_scraper.py:65-71 | a text holding "SNT 1" or "SNT 2" has a space |
| LegacyCourseScraper.Words | assets/py/course_scraper.py:70 | an SNT line has at least two words |
| LegacyCourseScraper.Distinct | assets/py/course_scraper.py:82 | the same items, each once |
| LegacyCourseScraper.BuildTitle | assets/py/course_scraper.py:73-75 | the loop builds the title word by word |
| LegacyCourseScraper.ScrapTables | assets/py/course_scraper.py:22-84 | the rows of every table, then the SNT rows without duplicates |
| LegacyCourseScraper.ScrapAllTables | assets/py/course_scraper.py:37-57 | the rows of all tables, one dropdown option after another |
| LegacyCourseScraper.BuildSntRows | assets/py/course_scraper.py:68-79 | the SNT loop builds one row per line |
| LegacyCourseScraper.BuildSntRow | assets/py/course_scraper.py:70-79 | the row of one SNT line |
| LegacyCourseScraper.TitleJoin | assets/py/course_scraper.py:73-75 | the title is the words joined by spaces, plus a space |
| LegacyCourseScraper.SntTitle | assets/py/course_scraper.py:73-79 | the stripped title is the words after the code joined by spaces, stripped |
| LegacyCourseScraper.SntRowClean | assets/py/run.py:108-112 | the course-row cleaning leaves an SNT row unchanged |
| LegacyCourseScraper.SntRowCells | assets/py/run.py:108-112 | an SNT row has the cells code, title and two blanks |
| LegacyCourseScraper.CellsRowRead | assets/py/run.py:108-119 | a four-cell row is processed into `code\|title\| \| ` |
| LegacyCourseScraper.SntRowRead | assets/py/course_scraper.py:78-79 | an SNT row is processed into its code, its title words and two blank fields |
| LegacyCourseScraper.DistinctKeepsFirst | assets/py/course_scraper.py:82 | the kept items are in order of first occurrence |
| LegacyCourseScraper.DistinctOfDistinct | assets/py/course_scraper.py:82 | removing duplicates from a list without any gives it back |
| LegacyRows.DedupeLines | assets/py/run.py:93-103 | the dedupe loop gives `Dedupe` of the desired lines |
| LegacyRows.DedupeDistinct | assets/py/run.py:93-103 | no two kept lines share a key |
| LegacyRows.DedupeFromInput | assets/py/run.py:93-103 | every kept line is an input line |
| LegacyRows.DedupeCovers | assets/py/run.py:93-103 | every input key is the key of a kept line |
| LegacyRows.DedupeKeepsFirst | assets/py/run.py:95-103 | the first line with a key is kept |
| LegacyRows.DedupeFirstPerKey | assets/py/run.py:95-103 | the kept line with a key is the first line with it |
| LegacyRows.OnlyFirstCommentKept | assets/py/run.py:96-97 | every `#`-line shares one key, so only the first `#`-line survives |
| LegacyRows.MissingCourseLines | assets/py/run.py:74-86 | the loop gives the added lines and codes of `MissingAsWritten` |
| LegacyRows.MissingStops | assets/py/run.py:76-86 | once a row raises, the loop raises the same error |
| LegacyRows.SubstringSkipsCourse | assets/py/run.py:79 | a course whose code is a substring of an added code is not added |
| LegacyRows.FirstRowAdded | assets/py/run.py:70-86 | the first row's course is added by the written and the intended check alike |
| LegacyRows.WholeCodeAddsCourse | assets/py/run.py:79-86 | the intended check adds both courses whenever their codes differ |
| LegacyRows.MissingIntendedOk | assets/py/run.py:74-86 | under the intended check rows of fourteen cells never raise, and each added line starts with its code |
| LegacyRows.MissingIntendedCovers | assets/py/run.py:74-86 | under the intended check every row's course is in the file or added |
| LegacyRows.MissingIntendedOnce | assets/py/run.py:74-86 | under the intended check no course is added twice, nor one the file has |
| LegacyRows.LessonCourseFileKeys | assets/py/run.py:88-105 | the course file keeps every current and added key, no key twice |
| LegacyRows.LessonCourseFileWarning | assets/py/run.py:88-105 | a file without a `#`-line gains the warning line as its only `#`-line |
| LegacyRows.SecuredSuffix | assets/py/run.py:129-136 | the secured lines are a suffix of the saved lines that starts with the warning line |
| LegacyRows.SecuredFromFirstWarning | assets/py/run.py:133-136 | the secured lines start at the first warning line, and are empty without one |
| LegacyRows.MergeSecured | assets/py/run.py:129-150 | the merge loops give `MergeCourseLines` |
| LegacyRows.FindSecured | assets/py/run.py:130-138 | the search loop gives the secured suffix |
| LegacyRows.CollectRemovals | assets/py/run.py:140-144 | the nested loops list each secured line once per new line sharing its code |
| LegacyRows.RemoveAll | assets/py/run.py:146-147 | the removals loop gives `RemoveEach` |
| LegacyRows.RemoveStops | assets/py/run.py:146-147 | once a removal fails, the removals raise |
| LegacyRows.UnclaimedExactly | assets/py/run.py:140-147 | the intended merge keeps exactly the secured lines whose code no new line has |
| LegacyRows.ClaimedExactly | assets/py/run.py:140-144 | every secured line on the removal list shares its code with some new line |
| LegacyRows.ClaimedUnclaimed | assets/py/run.py:140-147 | the secured lines split into the claimed and the unclaimed ones |
| LegacyRows.RemoveListClaimed | assets/py/run.py:140-144 | when no secured line matches two new lines, the removal list is the claimed lines |
| LegacyRows.RemoveOne | assets/py/run.py:147 | removing a present line succeeds and takes one copy |
| LegacyRows.RemoveClaimed | assets/py/run.py:147 | removing a present, claimed line succeeds and leaves the unclaimed lines as they were |
| LegacyRows.RemoveEachClaimed | assets/py/run.py:146-147 | removing claimed lines never fails and keeps the unclaimed lines |
| LegacyRows.MergeAgreesWhenUnique | assets/py/run.py:140-150 | when every secured line matches at most one new line, the merge is the intended one |
| LegacyRows.SharedCodeRaises | assets/py/run.py:146-147 | two new lines with one secured line's code raise `ValueError` |
| LegacyRows.CourseLines | assets/py/run.py:126 | one line per row |
| LegacyRows.SaveCourseRowsShape | assets/py/run.py:122-150 | the file starts with the new lines, sorted, and goes on with secured lines only |
| LegacyRows.RemoveEachWithin | assets/py/run.py:146-147 | removals only take lines away |
| LegacyPlanScraper.FirstLink | assets/py/course_plan_scraper.py:56-61 | `None` exactly when no cell has a link; otherwise a link some cell has |
| LegacyPlanScraper.LastSegmentOf | assets/py/course_plan_scraper.py:58-59 | the last segment of `dir/page` is `page` |
| LegacyPlanScraper.ReplaceLast | assets/py/course_plan_scraper.py:58-59 | replacing a page name that occurs once replaces only the last segment |
| LegacyPlanScraper.ElectiveUrlSameDirectory | assets/py/course_plan_scraper.py:58-59 | the elective URL is the page's directory followed by the link's href |
| LegacyPlanScraper.ElectiveOptions | assets/py/course_plan_scraper.py:63-85 | no table gives no option; otherwise the options are the link texts of the first table's rows after the header, raising when one has no link |
| LegacyPlanScraper.ScrapeElectiveOptions | assets/py/course_plan_scraper.py:63-85 | the loop gives `ElectiveOptions` |
| LegacyPlanScraper.SlotOf | assets/py/course_plan_scraper.py:53-88 | a short row raises `IndexError`; a row is an elective exactly when its second cell has a link, with the options of the rewritten URL's page; otherwise the first cell's link text |
| LegacyPlanScraper.ScrapeRow | assets/py/course_plan_scraper.py:53-88 | the row body gives `SlotOf` |
| LegacyPlanScraper.SemesterOf | assets/py/course_plan_scraper.py:48-90 | the header row is skipped; the semester is defined exactly when every later row is, slot `k-1` from row `k` |
| LegacyPlanScraper.ScrapeSemester | assets/py/course_plan_scraper.py:48-90 | the row loop gives `SemesterOf` |
| LegacyPlanScraper.ProgramOf | assets/py/course_plan_scraper.py:42-92 | one semester per table |
| LegacyPlanScraper.ScrapeProgram | assets/py/course_plan_scraper.py:42-92 | the table loop gives `ProgramOf` |
| LegacyPlanScraper.HtmlLinksMember | assets/py/course_plan_scraper.py:108-113 | a pair is listed exactly for a link whose href holds ".html": its text and `url + href` |
| LegacyPlanScraper.IterationLinksLookup | assets/py/course_plan_scraper.py:108-113 | a link text maps to the URL of its last `.html` link |
| LegacyPlanScraper.CollectIterations | assets/py/course_plan_scraper.py:108-113 | the link loop gives `IterationLinks` |
| LegacyPlanScraper.ProgramsOfReturn | assets/py/course_plan_scraper.py:104-127 | the programs are returned exactly when every iteration's page reads |
| LegacyPlanScraper.ProgramsOfEntries | assets/py/course_plan_scraper.py:104-127 | the programs keep the iterations' names, each with its page's program |
| LegacyPlanScraper.ScrapPrograms | assets/py/course_plan_scraper.py:104-127 | the loop gives `ProgramsOf` |
| LegacyPlanScraper.FacultyEntriesReturn | assets/py/course_plan_scraper.py:154-176 | a faculty's plans are returned exactly when every available program is scraped |
| LegacyPlanScraper.FacultyEntriesNames | assets/py/course_plan_scraper.py:154-176 | the plans keep the available programs' names, in order |
| LegacyPlanScraper.FacultyOutcomeOf | assets/py/course_plan_scraper.py:129-181 | an unavailable faculty is skipped; a scraped one keeps its name and a well-formed dictionary of plans |
| LegacyPlanScraper.FacultyPlansLookup | assets/py/course_plan_scraper.py:129-181 | a scraped faculty's plans map each program name to its scraped programs |
| LegacyPlanScraper.ScrapCoursePlan | assets/py/course_plan_scraper.py:129-181 | the faculty routine gives `FacultyOutcomeOf` |

## Left out

- Browser automation (Selenium): clicks, waits, stale-element recovery and
  the faculty, program-type and program navigation of
  `scrap_faculty_course_plans` and the course and lesson scrapers. Pages,
  dropdown readings and option lists are parameters.
- HTTP requests and HTML parsing (`requests`, BeautifulSoup): a page is a
  value of a small datatype, and a fetch is a function from URL to page.
  Anchors are assumed to carry an `href`, so a `KeyError` on a link without
  one is not modelled.
- The recursive retries of the older scraper (`get_soup_from_url` and
  `scrap_program_and_save`, assets/py/course_plan_scraper.py:94-102 and
  115-122): each retries from inside its own `except` handler, so a page
  that keeps failing ends in `RecursionError` at the interpreter's
  recursion limit. A fetch is deterministic here, so a failing page is
  modelled as that outcome (`None` / `RecursionLimit`) without counting
  the attempts.
- Threads: the unsynchronised shared faculty counter, thread start and
  join, and `min(MAX_THREAD_COUNT, n)`. Only the sequential chunk and batch
  arithmetic is modelled. The older script's slice of dropdown options is
  not modelled beyond its batches.
- File reads and writes, `tqdm`, logging, timing, sleeps and the
  command-line entry points. Files are lists of lines.
- The jQuery fetch and the fetch-count callback of the browser helper: the
  three files arrive as the arguments of `ITUHelper.Fetched`.
- Text.IsDigit accepts only the ASCII digits '0' to '9'. Python's `\d`
  in the searches of src/course_plan_scraper.py:305 and 313 matches any
  Unicode decimal digit, so labels written with other digits are not
  modelled by `ProgramLabel.FindYear` and `ProgramLabel.FindMarker`.
- The Unicode whitespace regex cleanup of `scrap_current_table`
  (src/course_scraper.py:122-125).
- The order of Python sets: `CourseScraper.GetCourseCodes` returns a
  mathematical set, so the iteration order of the codes is not modelled.
- The browser `Course` and `Lesson` objects are records in a registry
  (courses by index), not shared objects. The aliasing of the semester
  list that `#createSemesters` stores once it holds eight is modelled by
  storing the list again after each later push.
- JavaScript `undefined` field values are the string "undefined".
  Python's string `strip` and JavaScript's `trim` are modelled over
  explicit whitespace sets.
- MiscScraper.NamedBuildingFrom: the round trip of a named campus is
  stated for stripped cell texts, not for a whole raw row.
- LegacyPlanScraper.ElectiveUrlSameDirectory: proved only when the page
  name occurs once in the URL. Python's `replace` replaces every
  occurrence, and `ElectiveUrl` models that, but no lemma is stated for
  that case.
- ProgramLabel.NameFromPartBeforeIteration: stated for labels without
  leading whitespace. Labels are stripped when they are read, and the
  function models the general case.

## Findings

| source | as written | input that shows it | evidently intended | confidence | as-written member | corrected member |
|---|---|---|---|---|---|---|
| src/run.py:87 | a plan page that `src/course_plan_scraper.py` could not read (lines 46-48) is stored as `[[dict()]]`, and the writer's `list(course.keys())[0]` raises `IndexError` on it, so the whole course-plan file is lost | one iteration whose page did not load | the unreadable iteration is written as blank semester lines | high, not executed | PlanFormat.UnreadablePageRaises | PlanFormat.IterationLinesIntended |
| assets/py/run.py:176-185 | an elective without options is written as `[title*(`, with no closing `)]` | an elective whose option table is empty | `[title*()]`, as the current writer does | high, not executed | LegacyPlanFormat.UnclosedElective | PlanFormat.ElectiveClosed |
| assets/js/course.js:37-46 | a blank requirement text gives the group `[" undefined"]`, and every generated course gets it | the requirement text `""` | no requirement group | high, not executed | CourseRequirements.BlankTextNamesUndefined | CourseRequirements.IntendedBlank |
| assets/js/itu_helper.js:106-120 | the lesson loop does not skip blank lines, so the empty last line of a newline-terminated file generates a course coded "undefined" | a lesson file ending in a newline | blank lines skipped, as `#createCourses` does | high, not executed | ItuCourses.BlankLessonLineGenerates | ItuCourses.LessonsIntended |
| assets/js/itu_helper.js:112 | `majorRest` is read from the tenth field, which holds the enrolled count | any lesson line written by src/run.py:24-39 | the eleventh field, the major restriction | medium, not executed | RowFormat.MajorRestIsEnrolled | RowFormat.MajorRestIntended |
| assets/py/run.py:146-147 | a secured line that shares its code with two new lines is put on the removal list twice, and the second `list.remove` raises `ValueError` | new lines `A\|x` and `A\|y` and the secured line `A\|z` | the secured line dropped once | high, not executed | LegacyRows.SharedCodeRaises | LegacyRows.MergeAgreesWhenUnique |
| assets/py/run.py:79 | the presence check is a substring test on the added codes, so a code contained in one added before is skipped | the codes "MAT 1011" then "MAT 101" | a course added unless its whole code is known | high, not executed | LegacyRows.SubstringSkipsCourse | LegacyRows.WholeCodeAddsCourse |
