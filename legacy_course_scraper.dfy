/** The course scraper of the first version: the rows of each course table
    without its header rows, and the extra rows it builds from the SNT
    (sports and arts) course list, one row per course, duplicates dropped.
    The browser and the HTTP request are replaced by what they return: the
    rows of each table and the texts of the SNT page's links. */
module LegacyCourseScraper {
  import opened Wrappers
  import opened Text
  import R = RowFormat

  // ---------------------------------------------------------------- scrap_current_table

  /** A table row as the browser reports it: its `class` attribute and its
      outer HTML. */
  datatype TableRow = TableRow(cls: string, outerHtml: string)

  /** `scrap_current_table`: the outer HTML of every row whose class is not
      the header class `table-baslik`, in order. */
  function CurrentTable(rows: seq<TableRow>): (r: seq<string>)
    ensures |r| <= |rows|
  {
    if rows == [] then []
    else
      var row := rows[|rows| - 1];
      CurrentTable(rows[..|rows| - 1]) + if row.cls != "table-baslik" then [row.outerHtml] else []
  }

  /** A table gives exactly the rows that are not header rows. */
  lemma {:induction false} CurrentTableRows(rows: seq<TableRow>, x: string)
    ensures x in CurrentTable(rows) <==>
      exists k :: 0 <= k < |rows| && rows[k].cls != "table-baslik" && rows[k].outerHtml == x
  {
    if rows != [] {
      var init := rows[..|rows| - 1];
      CurrentTableRows(init, x);
      if x in CurrentTable(init) {
        var k :| 0 <= k < |init| && init[k].cls != "table-baslik" && init[k].outerHtml == x;
        assert rows[k] == init[k];
      }
      if exists k :: 0 <= k < |rows| && rows[k].cls != "table-baslik" && rows[k].outerHtml == x {
        var k :| 0 <= k < |rows| && rows[k].cls != "table-baslik" && rows[k].outerHtml == x;
        if k < |init| {
          assert init[k] == rows[k];
        }
      }
    }
  }

  /** The rows of all the tables, one dropdown option after another. */
  function TableRows(tables: seq<seq<TableRow>>): seq<string> {
    if tables == [] then [] else TableRows(tables[..|tables| - 1]) + CurrentTable(tables[|tables| - 1])
  }

  // ---------------------------------------------------------------- the SNT courses

  /** The non-breaking space the SNT page puts in its link texts. */
  const Nbsp: char := '\U{a0}'

  /** A link naming an SNT course. */
  predicate IsSnt(text: string) {
    Contains(text, "SNT 1") || Contains(text, "SNT 2")
  }

  /** The SNT link texts, their non-breaking spaces removed. */
  function SntLines(texts: seq<string>): (r: seq<string>)
    ensures |r| <= |texts|
    ensures forall k :: 0 <= k < |r| ==> ' ' in r[k] && Nbsp !in r[k]
  {
    if texts == [] then []
    else
      var text := texts[|texts| - 1];
      var init := SntLines(texts[..|texts| - 1]);
      if IsSnt(text) then
        SntHasSpace(text);
        RemoveCharKeeps(text, Nbsp, ' ');
        RemoveCharGone(text, Nbsp);
        init + [ReplaceAll(text, [Nbsp], "")]
      else init
  }

  /** An SNT link text holds a space, the one inside `SNT 1` or `SNT 2`. */
  lemma SntHasSpace(text: string)
    requires IsSnt(text)
    ensures ' ' in text
  {
    var p := if Contains(text, "SNT 1") then "SNT 1" else "SNT 2";
    var j := IndexOf(text, p).value;
    assert text[j..j + 5] == p;
    assert text[j + 3] == p[3];
  }

  /** The words of an SNT line. */
  function Words(snt: string): (r: seq<string>)
    requires ' ' in snt
    ensures |r| >= 2
  {
    SplitAtChar(snt, ' ');
    Split(snt, " ")
  }

  /** The course code: the first two words. */
  function SntCode(snt: string): string
    requires ' ' in snt
  {
    Words(snt)[0] + " " + Words(snt)[1]
  }

  /** The title the loop builds: every word followed by a space. */
  function Title(words: seq<string>): string {
    if words == [] then "" else Title(words[..|words| - 1]) + words[|words| - 1] + " "
  }

  /** The row of one SNT course, in the table-row form the row processing reads. */
  function SntRow(snt: string): string
    requires ' ' in snt
  {
    CellsRow(SntCode(snt), Strip(Title(Words(snt)[2..])))
  }

  /** A table row of four cells: a code, a title and two blank cells. */
  function CellsRow(code: string, title: string): string {
    "<td>" + code + "<td>" + title + "<td> <td> "
  }

  function SntRowsOf(lines: seq<string>): (r: seq<string>)
    requires forall k :: 0 <= k < |lines| ==> ' ' in lines[k]
    ensures |r| == |lines| && forall k :: 0 <= k < |lines| ==> r[k] == SntRow(lines[k])
  {
    seq(|lines|, k requires 0 <= k < |lines| => SntRow(lines[k]))
  }

  /** `list(dict.fromkeys(xs).keys())`: every item once, at its first occurrence. */
  function Distinct(xs: seq<string>): (r: seq<string>)
    ensures forall x :: x in r <==> x in xs
    ensures forall i, j :: 0 <= i < j < |r| ==> r[i] != r[j]
  {
    if xs == [] then []
    else
      var init := xs[..|xs| - 1];
      var d := Distinct(init);
      assert xs == init + [xs[|xs| - 1]];
      if xs[|xs| - 1] in d then d else d + [xs[|xs| - 1]]
  }

  /** The loop that builds a title word by word. */
  method BuildTitle(words: seq<string>) returns (title: string)
    ensures title == Title(words)
  {
    title := "";
    for i := 0 to |words|
      invariant title == Title(words[..i])
    {
      assert words[..i + 1][..i] == words[..i];
      title := title + words[i] + " ";
    }
    assert words[..|words|] == words;
  }

  /** `scrap_tables`: the rows of every table, then the SNT rows with their
      duplicates removed. */
  method ScrapTables(tables: seq<seq<TableRow>>, links: seq<string>) returns (rows: seq<string>)
    ensures rows == TableRows(tables) + Distinct(SntRowsOf(SntLines(links)))
  {
    var courses := ScrapAllTables(tables);
    var sntRows := BuildSntRows(SntLines(links));
    rows := courses + Distinct(sntRows);
  }

  /** The loop over the dropdown options, one table each. */
  method ScrapAllTables(tables: seq<seq<TableRow>>) returns (courses: seq<string>)
    ensures courses == TableRows(tables)
  {
    courses := [];
    for i := 0 to |tables|
      invariant courses == TableRows(tables[..i])
    {
      assert tables[..i + 1][..i] == tables[..i];
      courses := courses + CurrentTable(tables[i]);
    }
    assert tables[..|tables|] == tables;
  }

  /** The loop over the SNT lines, one row each. */
  method BuildSntRows(lines: seq<string>) returns (sntRows: seq<string>)
    requires forall k :: 0 <= k < |lines| ==> ' ' in lines[k]
    ensures sntRows == SntRowsOf(lines)
  {
    var all := SntRowsOf(lines);
    sntRows := [];
    for i := 0 to |lines|
      invariant sntRows == all[..i]
    {
      var row := BuildSntRow(lines[i]);
      PrefixSnoc(all, i);
      sntRows := sntRows + [row];
    }
    assert all[..|lines|] == all;
  }

  /** The row of one SNT line: the code from its first two words, the
      title from the rest. */
  method BuildSntRow(snt: string) returns (row: string)
    requires ' ' in snt
    ensures row == SntRow(snt)
  {
    var words := Words(snt);
    var code := words[0] + " " + words[1];
    var title := BuildTitle(words[2..]);
    row := CellsRow(code, Strip(title));
  }

  // ---------------------------------------------------------------- properties

  /** The title is the words after the code, joined by spaces. */
  lemma {:induction false} TitleJoin(words: seq<string>)
    ensures Title(words) == if words == [] then "" else Join(words, " ") + " "
  {
    if words != [] {
      var init := words[..|words| - 1];
      TitleJoin(init);
      JoinAppend(init, words[|words| - 1], " ");
      assert init + [words[|words| - 1]] == words;
    }
  }

  /** The title of an SNT row is the words after the first two, joined by
      spaces and stripped. */
  lemma SntTitle(snt: string)
    requires ' ' in snt
    ensures Strip(Title(Words(snt)[2..])) == Strip(Join(Words(snt)[2..], " "))
  {
    TitleJoin(Words(snt)[2..]);
    if |Words(snt)| > 2 {
      StripTrailingSpace(Join(Words(snt)[2..], " "));
    }
  }

  /** Every `<` of an SNT row opens a `<td>`. */
  lemma AngleOpensCell(code: string, title: string, j: nat)
    requires '<' !in code && '<' !in title
    requires var row := CellsRow(code, title);
      j < |row| && row[j] == '<'
    ensures var row := CellsRow(code, title);
      j + 3 < |row| && row[j + 1] == 't' && row[j + 2] == 'd'
  {
    var row := CellsRow(code, title);
  }

  /** So no tag other than `<td>` occurs in it. */
  lemma NoOtherTag(code: string, title: string, p: string)
    requires '<' !in code && '<' !in title
    requires |p| >= 3 && p[0] == '<' && (p[1] != 't' || p[2] != 'd')
    ensures !Contains(CellsRow(code, title), p)
  {
    var row := CellsRow(code, title);
    forall j ensures !MatchAt(row, p, j) {
      if MatchAt(row, p, j) {
        assert row[j..j + |p|][0] == row[j];
        assert row[j..j + |p|][1] == row[j + 1];
        assert row[j..j + |p|][2] == row[j + 2];
        AngleOpensCell(code, title, j);
      }
    }
  }

  /** The cleaning of a course row leaves an SNT row as it is. */
  lemma SntRowClean(code: string, title: string)
    requires '<' !in code && '<' !in title
    ensures var row := CellsRow(code, title);
      R.CleanCourseRow(row) == row
  {
    var row := CellsRow(code, title);
    NoOtherTag(code, title, "<tr>");
    NoOtherTag(code, title, "</tr>");
    NoOtherTag(code, title, "</td>");
    NoOtherTag(code, title, "<br>");
    NoOtherTag(code, title, "</br>");
    NoOtherTag(code, title, "<font color=\"#FF0000\">");
    NoOtherTag(code, title, "</font>");
    ReplaceAbsent(row, "<tr>", "");
    ReplaceAbsent(row, "</tr>", "");
    ReplaceAbsent(row, "</td>", "");
    ReplaceAbsent(row, "<br>", "");
    ReplaceAbsent(row, "</br>", "");
    ReplaceAbsent(row, "<font color=\"#FF0000\">", "");
    ReplaceAbsent(row, "</font>", "");
  }

  /** Splitting on a separator at the end of a piece free of its first character. */
  lemma SplitAfterFree(a: string, rest: string, sep: string)
    requires sep != [] && sep[0] !in a
    ensures Split(a + sep + rest, sep) == [a] + Split(rest, sep)
  {
    var s := a + sep + rest;
    assert s == a + (sep + rest);
    assert StartsWith(sep + rest, sep);
    IndexOfAfterFree(a, sep + rest, sep);
    assert s[..|a|] == a;
    assert s[|a| + |sep|..] == rest;
  }

  /** The cells of an SNT row: its code, its title and two blanks. */
  lemma SntRowCells(code: string, title: string)
    requires '<' !in code && '<' !in title
    ensures R.CourseCells(CellsRow(code, title)) == [code, title, " ", " "]
  {
    SntRowClean(code, title);
    SntRowSplit(code, title);
  }

  /** After the empty head, the row splits on `<td>` into its four cells. */
  lemma SntRowSplit(code: string, title: string)
    requires '<' !in code && '<' !in title
    ensures Split(CellsRow(code, title), "<td>")[1..] == [code, title, " ", " "]
  {
    CellsRowShape(code, title);
    SplitFour("<td>", code, title, " ");
  }

  /** Four cells, each opened by the separator, split back into the cells. */
  lemma SplitFour(sep: string, a: string, b: string, c: string)
    requires sep != [] && sep[0] !in a && sep[0] !in b && sep[0] !in c
    ensures Split(sep + (a + sep + (b + sep + (c + sep + c))), sep)[1..] == [a, b, c, c]
  {
    var t1 := a + sep + (b + sep + (c + sep + c));
    SplitThree(sep, a, b, c);
    SplitAtStart(t1, sep);
  }

  /** The last three separators of such a row. */
  lemma SplitThree(sep: string, a: string, b: string, c: string)
    requires sep != [] && sep[0] !in a && sep[0] !in b && sep[0] !in c
    ensures Split(a + sep + (b + sep + (c + sep + c)), sep) == [a, b, c, c]
  {
    var xs := [a, b, c, c];
    JoinFour(sep, a, b, c);
    assert forall i :: 0 <= i < |xs| ==> sep[0] !in xs[i];
    SplitJoinFree(xs, sep);
  }

  /** The row after its first separator is the join of its four cells. */
  lemma JoinFour(sep: string, a: string, b: string, c: string)
    ensures Join([a, b, c, c], sep) == a + sep + (b + sep + (c + sep + c))
  {
    assert [c, c][1..] == [c];
    assert Join([c, c], sep) == c + sep + c;
    assert [b, c, c][1..] == [c, c];
    assert Join([b, c, c], sep) == b + sep + (c + sep + c);
    assert [a, b, c, c][1..] == [b, c, c];
  }

  /** Pieces free of the separator's first character are split back out of
      their join. */
  lemma {:induction false} SplitJoinFree(xs: seq<string>, sep: string)
    requires |xs| >= 1 && sep != []
    requires forall i :: 0 <= i < |xs| ==> sep[0] !in xs[i]
    ensures Split(Join(xs, sep), sep) == xs
  {
    if |xs| == 1 {
      NotContainsStartingWith(xs[0], sep);
    } else {
      var rest := Join(xs[1..], sep);
      SplitAfterFree(xs[0], rest, sep);
      SplitJoinFree(xs[1..], sep);
    }
  }

  /** Splitting a string that starts with the separator. */
  lemma SplitAtStart(rest: string, sep: string)
    requires sep != []
    ensures Split(sep + rest, sep)[1..] == Split(rest, sep)
  {
    SplitAfterFree("", rest, sep);
    assert "" + sep + rest == sep + rest;
  }

  lemma CellsRowShape(code: string, title: string)
    ensures CellsRow(code, title) == "<td>" + (code + "<td>" + (title + "<td>" + (" " + "<td>" + " ")))
  {
    assert "<td> <td> " == "<td>" + (" " + "<td>" + " ");
  }

  /** The legacy row processing reads a four-cell row back as
      `code|title| | `, when neither the code nor the title holds `<` and
      the code holds no `>`. */
  lemma CellsRowRead(code: string, title: string)
    requires '<' !in code && '>' !in code && '<' !in title
    ensures R.ProcessCourseRow(CellsRow(code, title)) == Ok(code + "|" + title + "| | ")
  {
    SntRowCells(code, title);
    R.ExtractFromAPlain(code);
    var fields := [code, title, " ", " "];
    assert R.CourseFields(R.CourseCells(CellsRow(code, title))) == fields;
    assert fields[1..][1..][1..] == [" "];
    assert Join(fields[1..][1..], "|") == " " + "|" + " ";
    assert Join(fields[1..], "|") == title + "|" + (" " + "|" + " ");
    assert Join(fields, "|") == code + "|" + (title + "|" + (" " + "|" + " "));
    assert title + "|" + (" " + "|" + " ") == title + "| | ";
    assert Join(fields, "|") == code + "|" + title + "| | ";
    assert R.ProcessCourseRow(CellsRow(code, title)) == Ok(Join(fields, "|"));
  }

  /** So an SNT row is read back as its code, then the words after the code
      joined by spaces, then two blank fields. */
  lemma SntRowRead(snt: string)
    requires ' ' in snt
    requires var title := Strip(Title(Words(snt)[2..]));
      '<' !in SntCode(snt) && '>' !in SntCode(snt) && '<' !in title
    ensures R.ProcessCourseRow(SntRow(snt))
      == Ok(SntCode(snt) + "|" + Strip(Join(Words(snt)[2..], " ")) + "| | ")
  {
    CellsRowRead(SntCode(snt), Strip(Title(Words(snt)[2..])));
    SntTitle(snt);
  }

  /** The SNT rows are free of duplicates and are exactly the rows built,
      each first occurrence kept in its place. */
  lemma {:induction false} DistinctKeepsFirst(xs: seq<string>)
    ensures forall i, j :: 0 <= i < j < |Distinct(xs)| ==>
      FirstIndex(xs, Distinct(xs)[i]) < FirstIndex(xs, Distinct(xs)[j])
  {
    if xs != [] {
      var init := xs[..|xs| - 1];
      var last := xs[|xs| - 1];
      DistinctKeepsFirst(init);
      var d := Distinct(init);
      assert xs == init + [last];
      forall y | y in init
        ensures FirstIndex(xs, y) == FirstIndex(init, y)
      {
        FirstIndexPrefix(init, last, y);
      }
      if last !in d {
        FirstIndexLast(init, last);
      }
    }
  }

  /** Where an item first occurs. */
  function FirstIndex(xs: seq<string>, x: string): (k: nat)
    requires x in xs
    ensures k < |xs| && xs[k] == x && x !in xs[..k]
  {
    if xs[0] == x then 0
    else
      var k := FirstIndex(xs[1..], x);
      assert xs[..k + 1] == [xs[0]] + xs[1..][..k];
      k + 1
  }

  lemma FirstIndexPrefix(xs: seq<string>, y: string, x: string)
    requires x in xs
    ensures FirstIndex(xs + [y], x) == FirstIndex(xs, x)
  {
    var k := FirstIndex(xs, x);
    var m := FirstIndex(xs + [y], x);
    assert (xs + [y])[..k] == xs[..k];
    assert forall i :: 0 <= i < |xs| ==> (xs + [y])[i] == xs[i];
    assert forall i :: 0 <= i < m ==> (xs + [y])[..m][i] == (xs + [y])[i];
    assert forall i :: 0 <= i < k ==> xs[..k][i] == xs[i];
  }

  lemma FirstIndexLast(xs: seq<string>, y: string)
    requires y !in xs
    ensures FirstIndex(xs + [y], y) == |xs|
  {
    var m := FirstIndex(xs + [y], y);
    assert forall i :: 0 <= i < |xs| ==> (xs + [y])[i] == xs[i];
  }

  /** Removing the duplicates of a list without any gives it back, so the
      removal is idempotent. */
  lemma {:induction false} DistinctOfDistinct(xs: seq<string>)
    requires forall i, j :: 0 <= i < j < |xs| ==> xs[i] != xs[j]
    ensures Distinct(xs) == xs
  {
    if xs != [] {
      var init := xs[..|xs| - 1];
      DistinctOfDistinct(init);
      assert xs[|xs| - 1] !in init;
      assert init + [xs[|xs| - 1]] == xs;
    }
  }
}
