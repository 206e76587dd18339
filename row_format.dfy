/** The row transforms of both `run.py` versions: the text of a link cell,
    the cells of a lesson row and of a course row, the `|`-separated lines
    written for them, and the sorted order the lesson and course files are
    written in. Rows are the HTML text of a table row, as the scrapers hand
    them over. */
module RowFormat {
  import opened Wrappers
  import opened Text
  import C = ItuCourses

  // ---------------------------------------------------------------- extract_from_a

  /** `extract_from_a(a)`: a cell without `>` as it is; otherwise the text
      between the first `>` and the next `<`, stripped. */
  function ExtractFromA(a: string): string {
    if !Contains(a, ">") then a else Strip(Split(Split(a, ">")[1], "<")[0])
  }

  /** `s` up to its first `c`. */
  function UpTo(s: string, c: char): (r: string)
    ensures |r| <= |s| && r == s[..|r|] && c !in r
    ensures |r| < |s| ==> s[|r|] == c
  {
    if s == [] || s[0] == c then [] else [s[0]] + UpTo(s[1..], c)
  }

  /** `s` up to its first tag bracket, `<` or `>`. */
  function Cut(s: string): (r: string)
    ensures |r| <= |s| && r == s[..|r|] && '<' !in r && '>' !in r
    ensures |r| < |s| ==> s[|r|] == '<' || s[|r|] == '>'
  {
    if s == [] || s[0] == '<' || s[0] == '>' then []
    else
      var t := Cut(s[1..]);
      assert [s[0]] + t == s[..|t| + 1];
      [s[0]] + t
  }

  /** The first piece of a split on `c` is `s` up to its first `c`. */
  lemma SplitFirstPiece(s: string, c: char)
    ensures Split(s, [c])[0] == UpTo(s, c)
  {
    IndexOfChar(s, c);
  }

  lemma {:induction false} UpToUpTo(s: string)
    ensures UpTo(UpTo(s, '>'), '<') == Cut(s)
  {
    if s != [] && s[0] != '<' && s[0] != '>' {
      UpToUpTo(s[1..]);
    }
  }

  /** A cell without `>` is kept whole. */
  lemma ExtractFromAPlain(a: string)
    requires '>' !in a
    ensures ExtractFromA(a) == a
  {
    ContainsChar(a, '>');
  }

  /** The text of a link cell is what lies between its first `>` and the
      next tag bracket, stripped, and holds neither bracket. */
  lemma ExtractFromALink(a: string)
    requires '>' in a
    ensures ExtractFromA(a) == Strip(Cut(a[CharIndex(a, '>').value + 1..]))
    ensures '<' !in ExtractFromA(a) && '>' !in ExtractFromA(a)
  {
    var rest := a[CharIndex(a, '>').value + 1..];
    LinkText(a);
    StripWithin(Cut(rest), '<');
    StripWithin(Cut(rest), '>');
  }

  lemma LinkText(a: string)
    requires '>' in a
    ensures ExtractFromA(a) == Strip(Cut(a[CharIndex(a, '>').value + 1..]))
  {
    var rest := a[CharIndex(a, '>').value + 1..];
    ContainsChar(a, '>');
    SecondPiece(a);
    var mid := Split(a, ">")[1];
    SplitFirstPiece(mid, '<');
    assert "<" == ['<'];
    UpToUpTo(rest);
    assert Split(mid, "<")[0] == Cut(rest);
  }

  /** The second piece of a split on `>` is the text after the first `>`
      up to the next. */
  lemma SecondPiece(a: string)
    requires '>' in a
    ensures |Split(a, ">")| >= 2 && Split(a, ">")[1] == UpTo(a[CharIndex(a, '>').value + 1..], '>')
  {
    var i := CharIndex(a, '>').value;
    var rest := a[i + 1..];
    IndexOfChar(a, '>');
    assert Split(a, ">") == [a[..i]] + Split(rest, ">");
    SplitFirstPiece(rest, '>');
  }

  /** The text of a link holds neither `<` nor `>`, so extracting again
      changes nothing. */
  lemma ExtractFromAIdempotent(a: string)
    ensures ExtractFromA(ExtractFromA(a)) == ExtractFromA(a)
  {
    if '>' in a {
      ExtractFromALink(a);
      ExtractFromAPlain(ExtractFromA(a));
    } else {
      ExtractFromAPlain(a);
    }
  }

  /** Stripping keeps no character the text does not have. */
  lemma StripWithin(s: string, c: char)
    requires c !in s
    ensures c !in Strip(s)
  {
    var l := LStrip(Python, s);
    assert l == s[|s| - |l|..];
    var r := RStrip(Python, l);
    assert r == l[..|r|];
  }

  // ---------------------------------------------------------------- lesson rows

  /** The row text without its row tags, cell closers and line breaks
      (`<br>` becomes a space). */
  function CleanLessonRow(row: string): string {
    ReplaceAll(ReplaceAll(ReplaceAll(ReplaceAll(ReplaceAll(row, "<tr>", ""), "</tr>", ""), "</td>", ""), "<br>", " "), "</br>", "")
  }

  /** `split_lesson_row(row)`: the cells, the texts after each `<td>`. */
  function LessonCells(row: string): seq<string> {
    Split(CleanLessonRow(row), "<td>")[1..]
  }

  /** A cell holds no `<td>`: the cells are exactly the texts the cell
      openers separate. */
  lemma LessonCellsSeparated(row: string)
    ensures |LessonCells(row)| == |Split(CleanLessonRow(row), "<td>")| - 1
    ensures forall k :: 0 <= k < |LessonCells(row)| ==> !Contains(LessonCells(row)[k], "<td>")
  {
    SplitNoSeparator(CleanLessonRow(row), "<td>");
  }

  /** No piece of a split holds its separator. */
  lemma {:induction false} SplitNoSeparator(s: string, sep: string)
    requires sep != []
    ensures forall k :: 0 <= k < |Split(s, sep)| ==> !Contains(Split(s, sep)[k], sep)
    decreases |s|
  {
    match IndexOf(s, sep)
    case None =>
    case Some(i) =>
      SplitNoSeparator(s[i + |sep|..], sep);
      forall j | 0 <= j ensures !MatchAt(s[..i], sep, j) {
        if j + |sep| <= i {
          assert s[..i][j..j + |sep|] == s[j..j + |sep|];
          assert !MatchAt(s, sep, j);
        }
      }
  }

  /** The eleven fields of a lesson line: CRN, course code, teaching method,
      instructor, building, day, time, room, capacity, enrolled and major
      restriction, with the link text taken for code, building and major
      restriction; the second cell, the course title, is not written. */
  function LessonFields(cells: seq<string>): (r: seq<string>)
    requires |cells| >= 13
    ensures |r| == 11
  {
    [cells[0], ExtractFromA(cells[1]), cells[3], cells[4], ExtractFromA(cells[5]), cells[6],
     cells[7], cells[8], cells[9], cells[10], ExtractFromA(cells[12])]
  }

  /** `process_lesson_row(row)`: the fields joined by `|`; a row with fewer
      than thirteen cells raises. */
  function ProcessLessonRow(row: string): Result<string> {
    var data := LessonCells(row);
    if |data| < 13 then Err("IndexError") else Ok(Join(LessonFields(data), "|"))
  }

  /** A lesson line is written exactly for a row of thirteen cells or more;
      when no field holds `|`, splitting the line on `|` gives the fields
      back. */
  lemma LessonLineFields(row: string)
    ensures ProcessLessonRow(row).Ok? <==> |LessonCells(row)| >= 13
    ensures ProcessLessonRow(row).Ok? && (forall k :: 0 <= k < 11 ==> '|' !in LessonFields(LessonCells(row))[k]) ==>
              Split(ProcessLessonRow(row).value, "|") == LessonFields(LessonCells(row))
  {
    var data := LessonCells(row);
    if |data| >= 13 {
      var f := LessonFields(data);
      if forall k :: 0 <= k < 11 ==> '|' !in f[k] {
        SplitJoin(f, '|');
      }
    }
  }

  // ---------------------------------------------------------------- course rows

  /** The row text without the tags `process_course_row` drops. */
  function CleanCourseRow(row: string): string {
    ReplaceAll(ReplaceAll(ReplaceAll(ReplaceAll(ReplaceAll(ReplaceAll(ReplaceAll(
      row, "<tr>", ""), "</tr>", ""), "</td>", ""), "<br>", ""), "</br>", ""), "<font color=\"#FF0000\">", ""), "</font>", "")
  }

  function CourseCells(row: string): seq<string> {
    Split(CleanCourseRow(row), "<td>")[1..]
  }

  /** The four fields of a course line: code (a link's text), title,
      requirements and class restrictions. */
  function CourseFields(cells: seq<string>): (r: seq<string>)
    requires |cells| >= 4
    ensures |r| == 4
  {
    [ExtractFromA(cells[0]), cells[1], cells[2], cells[3]]
  }

  /** `process_course_row(row)` of the legacy `run.py`: the fields joined
      by `|`; a row with fewer than four cells raises. */
  function ProcessCourseRow(row: string): Result<string> {
    var data := CourseCells(row);
    if |data| < 4 then Err("IndexError") else Ok(Join(CourseFields(data), "|"))
  }

  /** The page reads a written course line back as the course it
      describes: the code, the title, the requirement text and the class
      restrictions of the row, when none holds `|` or a carriage return. */
  lemma CourseLineRead(row: string)
    requires |CourseCells(row)| >= 4
    requires forall k :: 0 <= k < 4 ==> '|' !in CourseFields(CourseCells(row))[k] && '\r' !in CourseFields(CourseCells(row))[k]
    ensures ProcessCourseRow(row).Ok?
    ensures var d := CourseCells(row);
      C.CourseOf(C.CleanLine(ProcessCourseRow(row).value)) == Some(C.NewCourse(ExtractFromA(d[0]), d[1], d[2], d[3]))
  {
    var f := CourseFields(CourseCells(row));
    var line := ProcessCourseRow(row).value;
    JoinChars(f, "|", '\r');
    RemoveAbsentChar(line, '\r');
    SplitJoin(f, '|');
  }

  // ---------------------------------------------------------------- the lesson line the page reads

  /** The line the page reads for a lesson row is the written line, and
      splitting it on `|` gives the row's fields back. */
  lemma LessonLineRead(row: string)
    requires ProcessLessonRow(row).Ok?
    requires var f := LessonFields(LessonCells(row));
      forall k :: 0 <= k < 11 ==> '|' !in f[k] && '\r' !in f[k]
    ensures var line := ProcessLessonRow(row).value;
      C.CleanLine(line) == line && line != "" && Split(line, "|") == LessonFields(LessonCells(row))
  {
    var line := ProcessLessonRow(row).value;
    var f := LessonFields(LessonCells(row));
    LessonLineFields(row);
    JoinChars(f, "|", '\r');
    RemoveAbsentChar(line, '\r');
    assert Split(line, "|") != [line];
  }

  /** The page takes a course's `majorRest` from the tenth field of a
      lesson line, which the writer fills with the enrolled count: the major
      restriction, in the eleventh field, is never read. */
  lemma MajorRestIsEnrolled(reg: C.Registry, row: string)
    requires C.Valid(reg)
    requires ProcessLessonRow(row).Ok?
    requires var f := LessonFields(LessonCells(row));
      (forall k :: 0 <= k < 11 ==> '|' !in f[k] && '\r' !in f[k]) && f[1] != ""
    ensures var cells := LessonCells(row);
      var r := C.AddLesson(reg, ProcessLessonRow(row).value);
      var code := ExtractFromA(cells[1]);
      code in r.dict && r.courses[r.dict[code]].majorRest == cells[10]
  {
    LessonLineRead(row);
  }

  /** The intended reading takes the major restriction, the eleventh field. */
  lemma MajorRestIntended(reg: C.Registry, row: string)
    requires C.Valid(reg)
    requires ProcessLessonRow(row).Ok?
    requires var f := LessonFields(LessonCells(row));
      (forall k :: 0 <= k < 11 ==> '|' !in f[k] && '\r' !in f[k]) && f[1] != ""
    ensures var cells := LessonCells(row);
      var r := C.AddLessonIntended(reg, ProcessLessonRow(row).value);
      var code := ExtractFromA(cells[1]);
      code in r.dict && r.courses[r.dict[code]].majorRest == ExtractFromA(cells[12])
  {
    var line := ProcessLessonRow(row).value;
    LessonLineRead(row);
    C.LessonsIntended(reg, [], line);
  }

  // ---------------------------------------------------------------- sorted files

  /** Python's order on strings: code point by code point, a proper prefix
      first. */
  predicate StrLe(a: string, b: string) {
    if a == [] then true
    else if b == [] then false
    else if a[0] != b[0] then a[0] < b[0]
    else StrLe(a[1..], b[1..])
  }

  lemma {:induction false} StrLeTotal(a: string, b: string)
    ensures StrLe(a, b) || StrLe(b, a)
  {
    if a != [] && b != [] && a[0] == b[0] {
      StrLeTotal(a[1..], b[1..]);
    }
  }

  lemma {:induction false} StrLeAntisymmetric(a: string, b: string)
    requires StrLe(a, b) && StrLe(b, a)
    ensures a == b
  {
    if a != [] && b != [] {
      StrLeAntisymmetric(a[1..], b[1..]);
      assert a == [a[0]] + a[1..] && b == [b[0]] + b[1..];
    }
  }

  predicate Sorted(xs: seq<string>) {
    forall i :: 0 < i < |xs| ==> StrLe(xs[i - 1], xs[i])
  }

  /** `x` placed before the first element it does not exceed. */
  function Insert(x: string, xs: seq<string>): seq<string> {
    if xs == [] then [x]
    else if StrLe(x, xs[0]) then [x] + xs
    else [xs[0]] + Insert(x, xs[1..])
  }

  /** `sorted(xs)`, `xs.sort()`. */
  function Sort(xs: seq<string>): seq<string> {
    if xs == [] then [] else Insert(xs[|xs| - 1], Sort(xs[..|xs| - 1]))
  }

  lemma {:induction false} InsertPermutes(x: string, xs: seq<string>)
    ensures multiset(Insert(x, xs)) == multiset(xs) + multiset{x}
  {
    if xs != [] && !StrLe(x, xs[0]) {
      InsertPermutes(x, xs[1..]);
      assert xs == [xs[0]] + xs[1..];
    }
  }

  lemma {:induction false} InsertSorted(x: string, xs: seq<string>)
    requires Sorted(xs)
    ensures Sorted(Insert(x, xs))
    ensures xs != [] ==> Insert(x, xs)[0] == x || Insert(x, xs)[0] == xs[0]
  {
    if xs != [] && !StrLe(x, xs[0]) {
      StrLeTotal(x, xs[0]);
      InsertSorted(x, xs[1..]);
    }
  }

  /** The sorted lines are sorted and are the same lines. */
  lemma SortSorted(xs: seq<string>)
    ensures Sorted(Sort(xs)) && multiset(Sort(xs)) == multiset(xs)
  {
    SortIsSorted(xs);
    SortPermutes(xs);
  }

  lemma {:induction false} SortIsSorted(xs: seq<string>)
    ensures Sorted(Sort(xs))
  {
    if xs != [] {
      var init := xs[..|xs| - 1];
      SortIsSorted(init);
      InsertSorted(xs[|xs| - 1], Sort(init));
    }
  }

  lemma {:induction false} SortPermutes(xs: seq<string>)
    ensures multiset(Sort(xs)) == multiset(xs)
  {
    if xs != [] {
      var init, last := xs[..|xs| - 1], xs[|xs| - 1];
      SortPermutes(init);
      InsertPermutes(last, Sort(init));
      assert xs == init + [last];
    }
  }

  /** One row's line with its newline. */
  function LessonLine(row: string): Result<string> {
    match ProcessLessonRow(row)
    case Err(e) => Err(e)
    case Ok(line) => Ok(line + "\n")
  }

  /** Each row's line with its newline, in row order; the first row that
      raises makes the whole save raise. */
  function LessonLines(rows: seq<string>): (r: Result<seq<string>>)
    ensures r.Ok? ==> |r.value| == |rows|
  {
    AllOk(seq(|rows|, k requires 0 <= k < |rows| => LessonLine(rows[k])))
  }

  /** The lines of `save_lesson_rows`: the row lines, sorted. */
  function LessonFileLines(rows: seq<string>): Result<seq<string>> {
    match LessonLines(rows)
    case Err(e) => Err(e)
    case Ok(lines) => Ok(Sort(lines))
  }

  /** The lesson file holds one line per row, in sorted order, and it is
      written exactly when every row has its thirteen cells. */
  lemma LessonFileSorted(rows: seq<string>)
    ensures LessonFileLines(rows).Ok? <==> forall k :: 0 <= k < |rows| ==> |LessonCells(rows[k])| >= 13
    ensures LessonFileLines(rows).Ok? ==>
      var lines := LessonFileLines(rows).value;
      Sorted(lines) && multiset(lines) == multiset(LessonLines(rows).value)
  {
    LessonLinesOk(rows);
    if LessonLines(rows).Ok? {
      SortSorted(LessonLines(rows).value);
    }
  }

  /** The row lines are produced exactly when every row has its thirteen
      cells. */
  lemma LessonLinesOk(rows: seq<string>)
    ensures LessonLines(rows).Ok? <==> forall k :: 0 <= k < |rows| ==> |LessonCells(rows[k])| >= 13
  {
    var results := seq(|rows|, k requires 0 <= k < |rows| => LessonLine(rows[k]));
    assert forall k :: 0 <= k < |rows| ==> (results[k].Ok? <==> |LessonCells(rows[k])| >= 13);
  }

  /** Line `k` of the row lines is row `k`'s line and its newline. */
  lemma LessonLinesEach(rows: seq<string>)
    requires LessonLines(rows).Ok?
    ensures forall k :: 0 <= k < |rows| ==> ProcessLessonRow(rows[k]).Ok? && LessonLines(rows).value[k] == ProcessLessonRow(rows[k]).value + "\n"
  {
    var results := seq(|rows|, k requires 0 <= k < |rows| => LessonLine(rows[k]));
    var lines := LessonLines(rows).value;
    forall k | 0 <= k < |rows|
      ensures ProcessLessonRow(rows[k]).Ok? && lines[k] == ProcessLessonRow(rows[k]).value + "\n"
    {
      assert results[k] == LessonLine(rows[k]) == Ok(lines[k]);
    }
  }

  /** `save_course_rows` of the current `run.py`: the rows sorted, each then
      given its newline. */
  function CourseFileLines(rows: seq<string>): seq<string> {
    var sorted := Sort(rows);
    seq(|sorted|, k requires 0 <= k < |sorted| => sorted[k] + "\n")
  }

  /** The course file holds every row once per occurrence, each ended by a
      newline, the rows in sorted order. */
  lemma CourseFileSorted(rows: seq<string>)
    ensures var lines := CourseFileLines(rows);
      |lines| == |rows| && (forall k :: 0 <= k < |lines| ==> lines[k] == Sort(rows)[k] + "\n")
      && Sorted(Sort(rows)) && multiset(Sort(rows)) == multiset(rows)
  {
    SortSorted(rows);
    assert |Sort(rows)| == |multiset(Sort(rows))|;
  }
}
