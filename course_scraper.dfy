/** The course-page scraper: which course codes it sets out to scrape (every
    code named by the lessons file, the curriculum file and the old course
    file), how it picks one course out of a page that lists two courses or
    one course under two names, and how lines of the old course file are
    added back for courses the pages did not give. The files are given by
    their lines, `None` for a file that does not exist; the page cells are
    given as the text the browser returns. */
module CourseScraper {
  import opened Wrappers
  import opened Text
  import R = RowFormat
  import PF = PlanFormat

  // ---------------------------------------------------------------- get_course_codes

  /** The lines of a file, none when it does not exist. */
  function Lines(file: Option<seq<string>>): seq<string> {
    if file.Some? then file.value else []
  }

  /** The first and the second `|`-separated field of a line holding `|`. */
  function FirstField(line: string): string {
    Split(line, "|")[0]
  }

  function SecondField(line: string): string
    requires '|' in line
  {
    SplitAtChar(line, '|');
    Split(line, "|")[1]
  }

  /** The course code of every lessons-file line holding `|`: its second field. */
  function LessonFileCodes(lines: seq<string>): (r: seq<string>)
    ensures |r| <= |lines|
  {
    if lines == [] then []
    else
      var line := lines[|lines| - 1];
      LessonFileCodes(lines[..|lines| - 1]) + if '|' in line then [SecondField(line)] else []
  }

  /** The course code of every old course-file line holding `|`: its first field. */
  function OldFileCodes(lines: seq<string>): (r: seq<string>)
    ensures |r| <= |lines|
  {
    if lines == [] then []
    else
      var line := lines[|lines| - 1];
      OldFileCodes(lines[..|lines| - 1]) + if '|' in line then [FirstField(line)] else []
  }

  /** The curriculum-file lines that are not headers (a header starts with
      `#`), their newlines removed. Every line of a file read by lines holds
      at least its newline, so `l[0]` exists. */
  function PlanRows(lines: seq<string>): (r: seq<string>)
    requires forall k :: 0 <= k < |lines| ==> lines[k] != ""
    ensures |r| <= |lines|
  {
    if lines == [] then []
    else
      var line := lines[|lines| - 1];
      PlanRows(lines[..|lines| - 1]) + if line[0] != '#' then [PF.NoNewlines(line)] else []
  }

  /** `s.replace(c, "")`. */
  function Remove(s: string, c: char): string {
    ReplaceAll(s, [c], "")
  }

  /** The options of an elective cell: the text after its last `*`, without
      `(`, `)` and `]`, split on `|`. */
  function ElectiveCodes(cell: string): seq<string> {
    var pieces := Split(cell, "*");
    Split(Remove(Remove(Remove(pieces[|pieces| - 1], '('), ')'), ']'), "|")
  }

  /** The codes one curriculum cell names: an elective (a cell holding `[`)
      its options, any other cell itself. */
  function CellCodes(cell: string): seq<string> {
    if '[' in cell then ElectiveCodes(cell) else [cell]
  }

  function CellsCodes(cells: seq<string>): seq<string> {
    if cells == [] then [] else CellsCodes(cells[..|cells| - 1]) + CellCodes(cells[|cells| - 1])
  }

  lemma CellsCodesStep(cells: seq<string>, j: nat)
    requires j < |cells|
    ensures CellsCodes(cells[..j + 1]) == CellsCodes(cells[..j]) + CellCodes(cells[j])
  {
    assert cells[..j + 1][..j] == cells[..j];
  }

  /** The codes of a curriculum row: those of its `=`-separated cells. */
  function RowCodes(row: string): seq<string> {
    CellsCodes(Split(row, "="))
  }

  function PlanCodes(rows: seq<string>): seq<string> {
    if rows == [] then [] else PlanCodes(rows[..|rows| - 1]) + RowCodes(rows[|rows| - 1])
  }

  /** Every code the three files name, in the order they are read. */
  function Harvest(lessons: Option<seq<string>>, plans: Option<seq<string>>, courses: Option<seq<string>>): seq<string>
    requires forall k :: 0 <= k < |Lines(plans)| ==> Lines(plans)[k] != ""
  {
    LessonFileCodes(Lines(lessons)) + PlanCodes(PlanRows(Lines(plans))) + OldFileCodes(Lines(courses))
  }

  /** `set(c.strip() for c in codes if len(c.strip()) > 0)`: the stripped
      codes, the empty ones dropped, each once. */
  function CodeSet(codes: seq<string>): (r: set<string>)
    ensures forall x :: x in r ==> x != "" && Strip(x) == x
    ensures forall k :: 0 <= k < |codes| && Strip(codes[k]) != "" ==> Strip(codes[k]) in r
    ensures forall x :: x in r ==> exists k :: 0 <= k < |codes| && Strip(codes[k]) == x
  {
    StripsAreStripped(codes);
    set k | 0 <= k < |codes| && Strip(codes[k]) != "" :: Strip(codes[k])
  }

  lemma StripsAreStripped(codes: seq<string>)
    ensures forall k :: 0 <= k < |codes| ==> Strip(Strip(codes[k])) == Strip(codes[k])
  {
    forall k | 0 <= k < |codes| {
      StripIdempotent(Python, codes[k]);
    }
  }

  /** `get_course_codes`: the lessons file, then the curriculum file row by
      row and cell by cell, then the old course file, the result stripped,
      non-empty and free of duplicates. */
  method GetCourseCodes(lessons: Option<seq<string>>, plans: Option<seq<string>>, courses: Option<seq<string>>)
    returns (codes: set<string>)
    requires forall k :: 0 <= k < |Lines(plans)| ==> Lines(plans)[k] != ""
    ensures codes == CodeSet(Harvest(lessons, plans, courses))
  {
    var lessonCodes: seq<string> := [];
    if lessons.Some? {
      lessonCodes := LessonFileCodes(lessons.value);
    }
    assert lessonCodes == LessonFileCodes(Lines(lessons));
    var planCodes := PlanFileCodes(PlanRows(Lines(plans)));
    var oldCodes: seq<string> := [];
    if courses.Some? {
      oldCodes := OldFileCodes(courses.value);
    }
    assert oldCodes == OldFileCodes(Lines(courses));
    var found := lessonCodes + planCodes + oldCodes;
    codes := CodeSet(found);
  }

  /** The loops over the curriculum rows and their cells. */
  method PlanFileCodes(rows: seq<string>) returns (found: seq<string>)
    ensures found == PlanCodes(rows)
  {
    found := [];
    for i := 0 to |rows|
      invariant found == PlanCodes(rows[..i])
    {
      var codes := RowFileCodes(Split(rows[i], "="));
      found := found + codes;
      assert rows[..i + 1][..i] == rows[..i];
    }
    assert rows[..|rows|] == rows;
  }

  method RowFileCodes(cells: seq<string>) returns (found: seq<string>)
    ensures found == CellsCodes(cells)
  {
    found := [];
    for j := 0 to |cells|
      invariant found == CellsCodes(cells[..j])
    {
      var cell := cells[j];
      if '[' in cell {
        found := found + ElectiveCodes(cell);
      } else {
        found := found + [cell];
      }
      CellsCodesStep(cells, j);
    }
    assert cells[..|cells|] == cells;
  }

  /** Reading back the curriculum file: the codes of an elective written as
      `[title*(a|b|...)]` are its options, when no option holds `*`, `(`,
      `)`, `]` or `|`. */
  lemma ElectiveCellCodes(title: string, options: seq<string>)
    requires |options| >= 1
    requires forall k :: 0 <= k < |options| ==>
      '*' !in options[k] && '(' !in options[k] && ')' !in options[k] && ']' !in options[k] && '|' !in options[k]
    ensures CellCodes(PF.ElectiveText(title, options)) == PF.CleanOptions(options)
  {
    var clean := PF.CleanOptions(options);
    CleanOptionsFree(options, '*');
    CleanOptionsFree(options, '(');
    CleanOptionsFree(options, ')');
    CleanOptionsFree(options, ']');
    CleanOptionsFree(options, '|');
    var j := Join(clean, "|");
    JoinChars(clean, "|", '*');
    JoinChars(clean, "|", '(');
    JoinChars(clean, "|", ')');
    JoinChars(clean, "|", ']');
    var cell := PF.ElectiveText(title, options);
    var head := "[" + PF.NoNewlines(title);
    assert cell == head + ['*'] + ("(" + j + ")]");
    assert cell[0] == '[';
    ElectiveCodesOfText(head, j);
    SplitJoin(clean, '|');
  }

  /** A character no option holds is in none of the cleaned options. */
  lemma CleanOptionsFree(options: seq<string>, c: char)
    requires forall k :: 0 <= k < |options| ==> c !in options[k]
    ensures forall k :: 0 <= k < |options| ==> c !in PF.CleanOptions(options)[k]
  {
  }

  /** The codes of `head*(j)]` are the `|`-separated pieces of `j`. */
  lemma ElectiveCodesOfText(head: string, j: string)
    requires '*' !in j && '(' !in j && ')' !in j && ']' !in j
    ensures ElectiveCodes(head + ['*'] + ("(" + j + ")]")) == Split(j, "|")
  {
    var tail := "(" + j + ")]";
    assert '*' !in tail;
    var pieces := Split(head + ['*'] + tail, "*");
    SplitLast(head, tail, '*');
    assert pieces[|pieces| - 1] == tail;
    OptionsText(j);
    assert ElectiveCodes(head + ['*'] + tail) == Split(Remove(Remove(Remove(tail, '('), ')'), ']'), "|");
  }

  /** Removing the parentheses and the closing bracket from `(j)]` leaves `j`. */
  lemma OptionsText(j: string)
    requires '(' !in j && ')' !in j && ']' !in j
    ensures Remove(Remove(Remove("(" + j + ")]", '('), ')'), ']') == j
  {
    assert "(" + j + ")]" == [] + ['('] + (j + ")]");
    RemoveSingleChar([], j + ")]", '(');
    var a := Remove("(" + j + ")]", '(');
    assert a == j + ")]";
    assert a == j + [')'] + "]";
    RemoveSingleChar(j, "]", ')');
    var b := Remove(a, ')');
    assert b == j + "]";
    assert b == j + [']'] + [];
    RemoveSingleChar(j, [], ']');
    assert j + [] == j;
  }

  /** A curriculum row of `=`-joined cells names the codes of its cells, in order. */
  lemma RowCodesOfCells(cells: seq<string>)
    requires |cells| >= 1 && forall k :: 0 <= k < |cells| ==> '=' !in cells[k]
    ensures RowCodes(Join(cells, "=")) == CellsCodes(cells)
  {
    SplitJoin(cells, '=');
  }

  /** Reading back the lessons file: the code harvested from a written
      lesson line is the course code of its row. */
  lemma LessonLineCode(row: string)
    requires |R.LessonCells(row)| >= 13
    requires '|' !in R.LessonCells(row)[0] && '|' !in R.ExtractFromA(R.LessonCells(row)[1])
    ensures LessonFileCodes([R.ProcessLessonRow(row).value + "\n"]) == [R.ExtractFromA(R.LessonCells(row)[1])]
  {
    var f := R.LessonFields(R.LessonCells(row));
    var rest := Join(f[2..], "|");
    assert f[1..][1..] == f[2..];
    assert Join(f, "|") == f[0] + "|" + (f[1] + "|" + rest);
    assert R.ProcessLessonRow(row).value + "\n" == f[0] + ['|'] + (f[1] + ['|'] + (rest + "\n"));
    SecondFieldCode(f[0], f[1], rest + "\n");
  }

  /** The code harvested from a line `a|b|t` is `b`, when `a` and `b` hold
      no `|`. */
  lemma SecondFieldCode(a: string, b: string, t: string)
    requires '|' !in a && '|' !in b
    ensures LessonFileCodes([a + ['|'] + (b + ['|'] + t)]) == [b]
  {
    var line := a + ['|'] + (b + ['|'] + t);
    assert line[|a|] == '|';
    SplitAfterPiece(a, b + ['|'] + t, '|');
    SplitAfterPiece(b, t, '|');
    assert [line][..0] == [line][1..];
  }

  /** Reading back the old course file: the code harvested from a scraped
      course line is the code it starts with. */
  lemma CourseLineCode(h: Header, rest: string)
    requires '|' !in h.code
    ensures OldFileCodes([ScrapedLine(h, rest) + "\n"]) == [h.code]
  {
    var line := ScrapedLine(h, rest) + "\n";
    assert line == h.code + ['|'] + (h.name + "|" + h.lang + "|" + rest + "\n");
    SplitAfterPiece(h.code, h.name + "|" + h.lang + "|" + rest + "\n", '|');
    assert line[|h.code|] == '|';
    assert [line][..0] == [line][1..];
  }

  // ---------------------------------------------------------------- scrap_current_table

  /** The code, name and language cells of a course page. */
  datatype Header = Header(code: string, name: string, lang: string)

  /** The start of the line a course page gives: code, name and language,
      each followed by `|`, then the rest of the fields. */
  function ScrapedLine(h: Header, rest: string): string {
    h.code + "|" + h.name + "|" + h.lang + "|" + rest
  }

  /** A code cell listing two courses: it holds `-` and is longer than that. */
  predicate IsDual(codeText: string) {
    '-' in codeText && |codeText| > 1
  }

  function StripAll(xs: seq<string>): (r: seq<string>)
    ensures |r| == |xs| && forall k :: 0 <= k < |xs| ==> r[k] == Strip(xs[k])
  {
    seq(|xs|, k requires 0 <= k < |xs| => Strip(xs[k]))
  }

  /** The index of the first code containing the searched code, -1 when none does. */
  function CourseIndex(codes: seq<string>, courseCode: string): (r: int)
    ensures -1 <= r < |codes|
    ensures r >= 0 ==> Contains(codes[r], courseCode)
    ensures forall k :: 0 <= k < |codes| && (r < 0 || k < r) ==> !Contains(codes[k], courseCode)
  {
    if codes == [] then -1
    else if Contains(codes[0], courseCode) then 0
    else
      var r := CourseIndex(codes[1..], courseCode);
      if r < 0 then -1 else r + 1
  }

  /** The `enumerate` loop that looks for the searched code, stopping at the first hit. */
  method FindCourseIndex(codes: seq<string>, courseCode: string) returns (index: int)
    ensures index == CourseIndex(codes, courseCode)
  {
    index := -1;
    var idx := 0;
    while idx < |codes|
      invariant 0 <= idx <= |codes|
      invariant forall k :: 0 <= k < idx ==> !Contains(codes[k], courseCode)
    {
      if Contains(codes[idx], courseCode) {
        index := idx;
        break;
      }
      idx := idx + 1;
    }
  }

  /** `xs[i]` for an index that is -1 (the last item) or in range. */
  function At(xs: seq<string>, i: int): string
    requires |xs| >= 1 && -1 <= i < |xs|
  {
    if i < 0 then xs[|xs| - 1] else xs[i]
  }

  /** A page listing two courses: the code at the found index (the last one
      when none matches), and the name and the language at the same index of
      their `/`-separated cells, stripped; an index past the name or the
      language pieces raises. Any other page is left as it is. */
  function SelectDual(courseCode: string, h: Header): Result<Header> {
    if !IsDual(h.code) then Ok(h)
    else Pick(StripAll(Split(h.code, "-")), Split(h.name, "/"), Split(h.lang, "/"), courseCode)
  }

  function Pick(codes: seq<string>, names: seq<string>, langs: seq<string>, courseCode: string): Result<Header>
    requires |codes| >= 1 && |names| >= 1 && |langs| >= 1
  {
    var i := CourseIndex(codes, courseCode);
    if i >= |names| || i >= |langs| then Err("IndexError")
    else Ok(Header(At(codes, i), Strip(At(names, i)), Strip(At(langs, i))))
  }

  /** One course under a `/`-separated Turkish and English name: the first
      language piece is kept, and the first name when that language says
      Turkish, the second otherwise. */
  function SelectLanguage(h: Header): Header {
    if '/' in h.name then
      SplitAtChar(h.name, '/');
      var lang := Strip(Split(h.lang, "/")[0]);
      Header(h.code, Strip(Split(h.name, "/")[if Contains(lang, "Türkçe") then 0 else 1]), lang)
    else h
  }

  function SelectCourse(courseCode: string, h: Header): Result<Header> {
    match SelectDual(courseCode, h)
    case Err(e) => Err(e)
    case Ok(d) => Ok(SelectLanguage(d))
  }

  /** The cell logic of `scrap_current_table` for the code, name and
      language cells. */
  method ScrapHeader(courseCode: string, codeText: string, nameText: string, langText: string)
    returns (r: Result<Header>)
    ensures r == SelectCourse(courseCode, Header(codeText, nameText, langText))
  {
    var code, name, lang := codeText, nameText, langText;
    if '-' in code && |code| > 1 {
      var codes := StripAll(Split(code, "-"));
      var index := FindCourseIndex(codes, courseCode);
      var names := Split(name, "/");
      var langs := Split(lang, "/");
      if index >= |names| || index >= |langs| {
        return Err("IndexError");
      }
      code := At(codes, index);
      name := Strip(At(names, index));
      lang := Strip(At(langs, index));
    }
    if '/' in name {
      SplitAtChar(name, '/');
      lang := Strip(Split(lang, "/")[0]);
      name := Strip(Split(name, "/")[if Contains(lang, "Türkçe") then 0 else 1]);
    }
    r := Ok(Header(code, name, lang));
  }

  /** A page with two courses `a-b` (a code cell longer than the bare `-`):
      the first is taken when its code contains the searched code, the
      second otherwise, and the name and language that go with it. */
  lemma DualTwoCourses(courseCode: string, a: string, b: string, n1: string, n2: string, l1: string, l2: string)
    requires '-' !in a && '-' !in b && |a| + |b| >= 1
    requires '/' !in n1 && '/' !in n2 && '/' !in l1 && '/' !in l2
    ensures SelectDual(courseCode, Header(a + "-" + b, n1 + "/" + n2, l1 + "/" + l2))
      == Ok(if Contains(Strip(a), courseCode) then Header(Strip(a), Strip(n1), Strip(l1))
            else Header(Strip(b), Strip(n2), Strip(l2)))
  {
    var h := Header(a + "-" + b, n1 + "/" + n2, l1 + "/" + l2);
    assert h.code[|a|] == '-';
    SplitTwo(a, b, '-');
    SplitTwo(n1, n2, '/');
    SplitTwo(l1, l2, '/');
    assert h.code == a + ['-'] + b && h.name == n1 + ['/'] + n2 && h.lang == l1 + ['/'] + l2;
    assert Split(h.code, "-") == [a, b];
    assert Split(h.name, "/") == [n1, n2];
    assert Split(h.lang, "/") == [l1, l2];
    assert IsDual(h.code);
    var codes := StripAll([a, b]);
    StripAllTwo(a, b);
    assert SelectDual(courseCode, h) == Pick(codes, [n1, n2], [l1, l2], courseCode);
    PickTwo(Strip(a), Strip(b), [n1, n2], [l1, l2], courseCode);
  }

  lemma StripAllTwo(a: string, b: string)
    ensures StripAll([a, b]) == [Strip(a), Strip(b)]
  {
    var xs := [a, b];
    var r := StripAll(xs);
    assert |r| == 2 && r[0] == Strip(xs[0]) && r[1] == Strip(xs[1]);
    assert r == [r[0], r[1]];
  }

  /** Two pieces without the separator split back apart. */
  lemma SplitTwo(a: string, b: string, c: char)
    requires c !in a && c !in b
    ensures Split(a + [c] + b, [c]) == [a, b]
  {
    SplitAfterPiece(a, b, c);
    IndexOfChar(b, c);
  }

  /** Choosing between two courses. */
  lemma PickTwo(x: string, y: string, names: seq<string>, langs: seq<string>, courseCode: string)
    requires |names| >= 2 && |langs| >= 2
    ensures Pick([x, y], names, langs, courseCode) ==
      if Contains(x, courseCode) then Ok(Header(x, Strip(names[0]), Strip(langs[0])))
      else if Contains(y, courseCode) then Ok(Header(y, Strip(names[1]), Strip(langs[1])))
      else Ok(Header(y, Strip(names[|names| - 1]), Strip(langs[|langs| - 1])))
  {
    assert [x, y][1..] == [y];
  }

  /** The second course of a two-course page whose name is not `/`-separated
      cannot be read: the index into the name pieces is out of range. */
  lemma DualWithoutNamesRaises(courseCode: string, a: string, b: string, name: string, lang: string)
    requires '-' !in a && '-' !in b && '/' !in name
    requires !Contains(Strip(a), courseCode) && Contains(Strip(b), courseCode)
    ensures SelectDual(courseCode, Header(a + "-" + b, name, lang)) == Err("IndexError")
  {
    var h := Header(a + "-" + b, name, lang);
    assert h.code[|a|] == '-';
    SplitTwo(a, b, '-');
    IndexOfChar(name, '/');
    var codes := StripAll([a, b]);
    StripAllTwo(a, b);
    assert SelectDual(courseCode, h) == Pick(codes, [name], Split(lang, "/"), courseCode);
    SecondIndex(Strip(a), Strip(b), courseCode);
  }

  /** Only the second of two codes containing the searched code: index 1. */
  lemma SecondIndex(x: string, y: string, courseCode: string)
    requires !Contains(x, courseCode) && Contains(y, courseCode)
    ensures CourseIndex([x, y], courseCode) == 1
  {
    assert [x, y][1..] == [y];
  }

  /** The course taken from a two-course page has a single name, so the
      language step leaves it as it is. */
  lemma DualNameIsSingle(courseCode: string, h: Header)
    requires IsDual(h.code) && SelectDual(courseCode, h).Ok?
    ensures '/' !in SelectDual(courseCode, h).value.name
    ensures SelectCourse(courseCode, h) == SelectDual(courseCode, h)
  {
    var names := Split(h.name, "/");
    SplitPieces(h.name, '/');
    var i := CourseIndex(StripAll(Split(h.code, "-")), courseCode);
    R.StripWithin(At(names, i), '/');
  }

  /** A course under the two names `a/b`: the first when the language says
      Turkish, the second otherwise; the language is stripped. */
  lemma Bilingual(code: string, a: string, b: string, lang: string)
    requires '/' !in a && '/' !in b && '/' !in lang
    ensures SelectLanguage(Header(code, a + "/" + b, lang))
      == Header(code, Strip(if Contains(Strip(lang), "Türkçe") then a else b), Strip(lang))
  {
    assert Join([a, b], "/") == a + "/" + b;
    assert (a + "/" + b)[|a|] == '/';
    SplitJoin([a, b], '/');
    IndexOfChar(lang, '/');
  }

  // ---------------------------------------------------------------- scrap_courses: the oldLines course file

  /** The code of a stripped oldLines-file line: its first field, stripped. */
  function OldLineCode(line: string): string {
    Strip(FirstField(line))
  }

  /** Some course line starts with `code|`. */
  predicate Known(courses: seq<string>, code: string) {
    exists k :: 0 <= k < |courses| && StartsWith(courses[k], code + "|")
  }

  /** One line of the old file: the stripped line is added when it is
      non-empty, holds `|` and no course line so far starts with its code
      and `|`. */
  function MergeStep(acc: seq<string>, l: string): (r: seq<string>)
    ensures r == acc || (r == acc + [Strip(l)] && Strip(l) != "" && '|' in Strip(l))
  {
    var line := Strip(l);
    if line == "" || '|' !in line || Known(acc, OldLineCode(line)) then acc else acc + [line]
  }

  /** The scraped course lines after all the lines of the old file. */
  function MergeOld(courses: seq<string>, oldLines: seq<string>): (r: seq<string>)
    ensures |courses| <= |r| && r[..|courses|] == courses
  {
    if oldLines == [] then courses
    else MergeStep(MergeOld(courses, oldLines[..|oldLines| - 1]), oldLines[|oldLines| - 1])
  }

  /** The loop over the old course file. */
  method MergeOldCourses(courses: seq<string>, oldLines: seq<string>) returns (merged: seq<string>)
    ensures merged == MergeOld(courses, oldLines)
  {
    merged := courses;
    for i := 0 to |oldLines|
      invariant merged == MergeOld(courses, oldLines[..i])
    {
      assert oldLines[..i + 1][..i] == oldLines[..i];
      var line := Strip(oldLines[i]);
      if line == "" || '|' !in line {
        continue;
      }
      var code := Strip(FirstField(line));
      var found := FindKnown(merged, code);
      if !found {
        merged := merged + [line];
      }
    }
    assert oldLines[..|oldLines|] == oldLines;
  }

  /** The inner search: does some course line start with `code|`? */
  method FindKnown(courses: seq<string>, code: string) returns (found: bool)
    ensures found == Known(courses, code)
  {
    found := false;
    var j := 0;
    while j < |courses|
      invariant 0 <= j <= |courses|
      invariant forall k :: 0 <= k < j ==> !StartsWith(courses[k], code + "|")
    {
      if StartsWith(courses[j], code + "|") {
        found := true;
        break;
      }
      j := j + 1;
    }
  }

  /** An old line is appended exactly when it is non-empty, holds `|` and
      no course line so far starts with its code and `|`. */
  lemma MergeOldStep(courses: seq<string>, oldLines: seq<string>, l: string)
    ensures var acc := MergeOld(courses, oldLines);
      var line := Strip(l);
      MergeOld(courses, oldLines + [l]) ==
        if line != "" && '|' in line && !Known(acc, OldLineCode(line)) then acc + [line] else acc
  {
    assert (oldLines + [l])[..|oldLines|] == oldLines;
  }

  /** Everything added after the scraped lines is non-empty, holds `|`
      and is one of the old lines, stripped. */
  lemma {:induction false} MergeOldAdded(courses: seq<string>, oldLines: seq<string>)
    ensures var r := MergeOld(courses, oldLines);
      forall k :: |courses| <= k < |r| ==> r[k] != "" && '|' in r[k] && r[k] in StripAll(oldLines)
  {
    if oldLines != [] {
      var init := oldLines[..|oldLines| - 1];
      MergeOldAdded(courses, init);
      StripAllPrefix(oldLines);
      MergeOldUnfold(courses, oldLines);
      AddedStep(MergeOld(courses, init), oldLines[|oldLines| - 1], |courses|, StripAll(init));
    }
  }

  /** One more old line keeps every added line among the stripped old lines. */
  lemma AddedStep(acc: seq<string>, l: string, n: nat, olds: seq<string>)
    requires n <= |acc|
    requires forall k :: n <= k < |acc| ==> acc[k] != "" && '|' in acc[k] && acc[k] in olds
    ensures var r := MergeStep(acc, l);
      forall k :: n <= k < |r| ==> r[k] != "" && '|' in r[k] && r[k] in olds + [Strip(l)]
  {
    var r := MergeStep(acc, l);
    forall k | n <= k < |r|
      ensures r[k] != "" && '|' in r[k] && r[k] in olds + [Strip(l)]
    {
      if k < |acc| {
        assert r[k] == acc[k];
      }
    }
  }

  lemma MergeOldUnfold(courses: seq<string>, oldLines: seq<string>)
    requires oldLines != []
    ensures MergeOld(courses, oldLines) ==
      MergeStep(MergeOld(courses, oldLines[..|oldLines| - 1]), oldLines[|oldLines| - 1])
  {
  }

  lemma StripAllPrefix(xs: seq<string>)
    requires xs != []
    ensures StripAll(xs) == StripAll(xs[..|xs| - 1]) + [Strip(xs[|xs| - 1])]
  {
    assert StripAll(xs)[..|xs| - 1] == StripAll(xs[..|xs| - 1]);
  }

  /** A course line keeps every code it starts with known. */
  lemma KnownExtends(acc: seq<string>, r: seq<string>, code: string)
    requires |acc| <= |r| && r[..|acc|] == acc && Known(acc, code)
    ensures Known(r, code)
  {
    var k :| 0 <= k < |acc| && StartsWith(acc[k], code + "|");
    assert r[k] == acc[k];
  }

  /** After its step, the code of a usable old line whose first field has
      no surrounding spaces is known. */
  lemma StepKnows(acc: seq<string>, l: string)
    requires var line := Strip(l);
      line != "" && '|' in line && Strip(FirstField(line)) == FirstField(line)
    ensures Known(MergeStep(acc, l), OldLineCode(Strip(l)))
  {
    var line := Strip(l);
    var code := OldLineCode(line);
    if !Known(acc, code) {
      SplitAtChar(line, '|');
      assert line[..|code| + 1] == code + "|";
      assert MergeStep(acc, l)[|acc|] == line;
    }
  }

  /** After the merge, the code of every usable old line is known, when the
      line's first field carries no surrounding spaces: either a scraped
      line already started with it or the old line itself was added. */
  lemma {:induction false} MergeOldKnown(courses: seq<string>, oldLines: seq<string>, i: nat)
    requires i < |oldLines|
    requires var line := Strip(oldLines[i]);
      line != "" && '|' in line && Strip(FirstField(line)) == FirstField(line)
    ensures Known(MergeOld(courses, oldLines), OldLineCode(Strip(oldLines[i])))
  {
    MergeOldKnownLine(courses, oldLines, i, oldLines[i], OldLineCode(Strip(oldLines[i])));
  }

  /** The same, for the line `l` at position `i` and its code. */
  lemma {:induction false} MergeOldKnownLine(courses: seq<string>, oldLines: seq<string>, i: nat, l: string, code: string)
    requires i < |oldLines| && oldLines[i] == l && code == OldLineCode(Strip(l))
    requires var line := Strip(l);
      line != "" && '|' in line && Strip(FirstField(line)) == FirstField(line)
    ensures Known(MergeOld(courses, oldLines), code)
  {
    var init := oldLines[..|oldLines| - 1];
    var acc := MergeOld(courses, init);
    var last := oldLines[|oldLines| - 1];
    MergeOldUnfold(courses, oldLines);
    if i < |oldLines| - 1 {
      assert init[i] == l;
      MergeOldKnownLine(courses, init, i, l, code);
      KnownStep(acc, last, code);
    } else {
      StepKnows(acc, l);
    }
  }

  /** A known code stays known after one more old line. */
  lemma KnownStep(acc: seq<string>, l: string, code: string)
    requires Known(acc, code)
    ensures Known(MergeStep(acc, l), code)
  {
    KnownExtends(acc, MergeStep(acc, l), code);
  }
}
