/** The scraper of the building and programme code tables: one line
    `code|building|campus` per building row and one line `code|name` per
    programme row. The HTTP request and the HTML parsing are replaced by what
    they give: the texts of each table row's cells. */
module MiscScraper {
  import opened Wrappers
  import opened Text
  import C = CourseScraper

  // ---------------------------------------------------------------- buildings

  /** The campus of a building whose name names none. */
  const DefaultCampus: string := "Ayazağa"

  /** A building: its code, its name and its campus. */
  datatype Building = Building(code: string, name: string, campus: string)

  /** The name cell, with the default campus appended when it holds no `(`. */
  function WithCampus(name: string): (r: string)
    ensures '(' in r
  {
    if '(' in name then name
    else
      assert (name + " (" + DefaultCampus + ")")[|name| + 1] == '(';
      name + " (" + DefaultCampus + ")"
  }

  /** The campus: the text after the last `(`, stripped, every `)` removed. */
  function Campus(name: string): (r: string)
    ensures ')' !in r
  {
    var pieces := Split(name, "(");
    CampusOfPiece(pieces[|pieces| - 1])
  }

  /** The campus from the piece after the last `(`. */
  function CampusOfPiece(piece: string): (r: string)
    ensures ')' !in r
  {
    RemoveCharGone(Strip(piece), ')');
    ReplaceAll(Strip(piece), ")", "")
  }

  /** The building name: the name cell without its `(campus)`, stripped. */
  function BuildingName(name: string, campus: string): string {
    Strip(PyReplace(name, "(" + campus + ")", ""))
  }

  /** The building a row describes, from its stripped cell texts; a row with
      fewer than two cells raises an index error. */
  function BuildingOf(row: seq<string>): (r: Result<Building>)
    ensures r.Err? <==> |row| < 2
    ensures r.Ok? ==> ')' !in r.value.campus
  {
    if |row| < 2 then Err("IndexError") else Ok(BuildingFrom(Strip(row[0]), Strip(row[1])))
  }

  /** The building of a row from its code and name cell texts, both
      stripped. */
  function BuildingFrom(code: string, cell: string): (r: Building)
    ensures ')' !in r.campus
  {
    var name := WithCampus(cell);
    var campus := Campus(name);
    Building(Strip(code), BuildingName(name, campus), campus)
  }

  /** The output line of a building. */
  function BuildingLine(b: Building): string {
    b.code + "|" + b.name + "|" + b.campus + "\n"
  }

  /** The buildings of all the rows, one per row in order; a short row raises. */
  function Buildings(rows: seq<seq<string>>): Result<seq<Building>> {
    AllOk(BuildingResults(rows))
  }

  /** What each row gives, in order. */
  function BuildingResults(rows: seq<seq<string>>): (r: seq<Result<Building>>)
    ensures |r| == |rows|
  {
    if rows == [] then [] else BuildingResults(rows[..|rows| - 1]) + [BuildingOf(rows[|rows| - 1])]
  }

  lemma {:induction false} BuildingResultsAt(rows: seq<seq<string>>, k: nat)
    requires k < |rows|
    ensures BuildingResults(rows)[k] == BuildingOf(rows[k])
  {
    if k < |rows| - 1 {
      BuildingResultsAt(rows[..|rows| - 1], k);
    }
  }

  /** A row list gives its buildings exactly when every row has two cells,
      and then one building per row, in order. */
  lemma BuildingsRows(rows: seq<seq<string>>)
    ensures Buildings(rows).Ok? <==> forall k :: 0 <= k < |rows| ==> |rows[k]| >= 2
    ensures Buildings(rows).Ok? ==> (|Buildings(rows).value| == |rows| &&
      forall k :: 0 <= k < |rows| ==> BuildingOf(rows[k]) == Ok(Buildings(rows).value[k]))
  {
    forall k | 0 <= k < |rows| ensures BuildingResults(rows)[k] == BuildingOf(rows[k]) {
      BuildingResultsAt(rows, k);
    }
  }

  /** The output text of a list of buildings, one line each. */
  function BuildingsText(bs: seq<Building>): string {
    if bs == [] then "" else BuildingsText(bs[..|bs| - 1]) + BuildingLine(bs[|bs| - 1])
  }

  /** `scrap_building_codes`: the building lines, one after another; a short
      row raises. */
  method ScrapBuildingCodes(rows: seq<seq<string>>) returns (r: Result<string>)
    ensures r.Ok? <==> Buildings(rows).Ok?
    ensures r.Ok? ==> r.value == BuildingsText(Buildings(rows).value)
  {
    var output := "";
    for i := 0 to |rows|
      invariant Buildings(rows[..i]).Ok?
      invariant output == BuildingsText(Buildings(rows[..i]).value)
    {
      var b := ScrapBuildingRow(rows[i]);
      if b.Err? {
        BuildingsShortRow(rows, i);
        return Err("IndexError");
      }
      BuildingsStep(rows, i);
      output := output + BuildingLine(b.value);
    }
    assert rows[..|rows|] == rows;
    r := Ok(output);
  }

  /** A short row makes the whole table raise. */
  lemma BuildingsShortRow(rows: seq<seq<string>>, i: nat)
    requires i < |rows| && BuildingOf(rows[i]).Err?
    ensures Buildings(rows).Err?
  {
    BuildingsRows(rows);
  }

  /** One more row of two cells adds the line of its building. */
  lemma BuildingsStep(rows: seq<seq<string>>, i: nat)
    requires i < |rows| && Buildings(rows[..i]).Ok? && BuildingOf(rows[i]).Ok?
    ensures Buildings(rows[..i + 1]).Ok?
    ensures BuildingsText(Buildings(rows[..i + 1]).value)
      == BuildingsText(Buildings(rows[..i]).value) + BuildingLine(BuildingOf(rows[i]).value)
  {
    PrefixStep(rows, i);
    assert BuildingResults(rows[..i + 1]) == BuildingResults(rows[..i]) + [BuildingOf(rows[i])];
    AllOkAppend(BuildingResults(rows[..i]), BuildingOf(rows[i]));
    var bs := Buildings(rows[..i]).value;
    assert (bs + [BuildingOf(rows[i]).value])[..|bs|] == bs;
  }

  /** The body of the row loop: the stripped cell texts; a row with fewer
      than two cells raises. */
  method ScrapBuildingRow(row: seq<string>) returns (r: Result<Building>)
    ensures r == BuildingOf(row)
  {
    var cells := C.StripAll(row);
    if |cells| < 2 {
      return Err("IndexError");
    }
    var b := BuildingOfCells(cells[0], cells[1]);
    r := Ok(b);
  }

  /** The rest of the row loop's body: the default campus, the campus and
      the building name. */
  method BuildingOfCells(code: string, cell: string) returns (b: Building)
    ensures b == BuildingFrom(code, cell)
  {
    var name := cell;
    if '(' !in name {
      name := name + " (" + DefaultCampus + ")";
    }
    assert name == WithCampus(cell);
    var campus := CampusOfName(name);
    b := Building(Strip(code), Strip(PyReplace(name, "(" + campus + ")", "")), campus);
  }

  /** The campus: the piece after the last `(`, stripped, its `)` removed. */
  method CampusOfName(name: string) returns (campus: string)
    ensures campus == Campus(name)
  {
    var pieces := Split(name, "(");
    var last := pieces[|pieces| - 1];
    campus := ReplaceAll(Strip(last), ")", "");
    assert campus == CampusOfPiece(last);
  }

  /** No whitespace at either end, as after a strip. */
  predicate Stripped(s: string) {
    s == [] || (!IsPySpace(s[0]) && !IsPySpace(s[|s| - 1]))
  }

  /** A name cell `b (c)` is read back as the building `b` on the campus
      `c`, when `b` holds no `(`, `c` neither bracket, and both are stripped. */
  lemma NamedBuilding(b: string, c: string)
    requires Stripped(b) && Stripped(c)
    requires '(' !in b && '(' !in c && ')' !in c
    ensures var name := b + " (" + c + ")";
      WithCampus(name) == name && Campus(name) == c && BuildingName(name, c) == b
  {
    var name := b + " (" + c + ")";
    assert name[|b| + 1] == '(';
    assert name == (b + " ") + "(" + c + ")";
    CampusOfNamed(b + " ", c);
    BuildingNameOfNamed(b, c);
  }

  /** The campus part of `a(c)`. */
  lemma CampusOfNamed(a: string, c: string)
    requires '(' !in a && '(' !in c && ')' !in c && Stripped(c)
    ensures Campus(a + "(" + c + ")") == c
  {
    LastPiece(a, c);
    CampusOf(a + "(" + c + ")", c);
  }

  /** A name whose piece after the last `(` is `c)` has the campus `c`. */
  lemma CampusOf(name: string, c: string)
    requires var pieces := Split(name, "("); pieces[|pieces| - 1] == c + ")"
    requires ')' !in c && Stripped(c)
    ensures Campus(name) == c
  {
    var pieces := Split(name, "(");
    assert Campus(name) == CampusOfPiece(pieces[|pieces| - 1]);
    ClosedCampus(c);
  }

  /** The piece of `a(c)` after its last `(`. */
  lemma LastPiece(a: string, c: string)
    requires '(' !in c
    ensures var pieces := Split(a + "(" + c + ")", "(");
      pieces[|pieces| - 1] == c + ")"
  {
    assert a + "(" + c + ")" == a + ['('] + (c + ")");
    SplitLast(a, c + ")", '(');
  }

  /** The piece after the last `(`: the campus and its `)`. */
  lemma ClosedCampus(c: string)
    requires ')' !in c && Stripped(c)
    ensures CampusOfPiece(c + ")") == c
  {
    ClosedStripped(c);
    ClosedRemoved(c);
  }

  /** Removing the closing `)` of a campus leaves the campus. */
  lemma ClosedRemoved(c: string)
    requires ')' !in c
    ensures ReplaceAll(c + ")", ")", "") == c
  {
    RemoveSingleChar(c, "", ')');
    assert c + [')'] + "" == c + ")";
    assert c + "" == c;
  }

  /** A stripped campus followed by `)` is stripped too. */
  lemma ClosedStripped(c: string)
    requires Stripped(c)
    ensures Strip(c + ")") == c + ")"
  {
    var last := c + ")";
    assert !IsPySpace(last[0]) by {
      if c != [] {
        assert last[0] == c[0];
      }
    }
    StripFixed(Python, last);
  }

  /** The building part of `b (c)`. */
  lemma BuildingNameOfNamed(b: string, c: string)
    requires Stripped(b) && '(' !in b
    ensures BuildingName(b + " (" + c + ")", c) == b
  {
    var pat := "(" + c + ")";
    var head := b + " ";
    var name := head + pat;
    assert b + " (" + c + ")" == name;
    IndexOfAfterFree(head, pat, pat);
    assert name[..|head|] == head;
    assert name[|head| + |pat|..] == [];
    assert ReplaceAll(name, pat, "") == head + "" + ReplaceAll([], pat, "");
    assert ReplaceAll(name, pat, "") == head;
    StripTrailingSpace(b);
    StripFixed(Python, b);
  }

  /** A name without `(` gets the default campus and keeps its text. */
  lemma DefaultBuilding(b: string)
    requires Stripped(b) && '(' !in b
    ensures var name := WithCampus(b);
      Campus(name) == DefaultCampus && BuildingName(name, DefaultCampus) == b
  {
    NamedBuilding(b, DefaultCampus);
  }

  /** So the stripped cells of a row whose name cell names a campus give
      that building on it. */
  lemma NamedBuildingFrom(code: string, b: string, c: string)
    requires Stripped(b) && '(' !in b
    requires Stripped(c) && '(' !in c && ')' !in c
    ensures BuildingFrom(code, b + " (" + c + ")") == Building(Strip(code), b, c)
  {
    NamedBuilding(b, c);
  }

  /** And a row whose name cell names none gives the building on the
      default campus. */
  lemma DefaultBuildingRow(code: string, b: string)
    requires Stripped(b) && '(' !in b
    ensures BuildingOf([code, b]) == Ok(Building(Strip(code), b, DefaultCampus))
  {
    DefaultBuilding(b);
    StripFixed(Python, b);
    StripIdempotent(Python, code);
    var strippedCode := Strip(code);
    assert BuildingFrom(strippedCode, b) == Building(strippedCode, b, DefaultCampus);
    assert BuildingOf([code, b]) == Ok(BuildingFrom(strippedCode, Strip(b)));
  }

  // ---------------------------------------------------------------- programmes

  /** A programme: its code and its name. */
  datatype Programme = Programme(code: string, name: string)

  /** The programme of a row: only a row of exactly two cells gives one. */
  function ProgrammeOf(row: seq<string>): (r: Option<Programme>)
    ensures r.Some? <==> |row| == 2
  {
    var cells := C.StripAll(row);
    if |cells| != 2 then None else Some(Programme(Strip(cells[0]), Strip(cells[1])))
  }

  /** The output line of a programme. */
  function ProgrammeLine(p: Programme): string {
    p.code + "|" + p.name + "\n"
  }

  /** The programmes of the rows, in order. */
  function Programmes(rows: seq<seq<string>>): (r: seq<Programme>)
    ensures |r| <= |rows|
  {
    Somes(ProgrammeOptions(rows))
  }

  /** What each row gives, in order. */
  function ProgrammeOptions(rows: seq<seq<string>>): (r: seq<Option<Programme>>)
    ensures |r| == |rows|
  {
    seq(|rows|, k requires 0 <= k < |rows| => ProgrammeOf(rows[k]))
  }

  /** The output text of a list of programmes, one line each. */
  function ProgrammesText(ps: seq<Programme>): string {
    if ps == [] then "" else ProgrammesText(ps[..|ps| - 1]) + ProgrammeLine(ps[|ps| - 1])
  }

  /** `scrap_programme_codes`: the programme lines, one after another. */
  method ScrapProgrammeCodes(rows: seq<seq<string>>) returns (output: string)
    ensures output == ProgrammesText(Programmes(rows))
  {
    output := "";
    for i := 0 to |rows|
      invariant output == ProgrammesText(Programmes(rows[..i]))
    {
      var p := ScrapProgrammeRow(rows[i]);
      ProgrammesTextStep(rows, i);
      if p.Some? {
        output := output + ProgrammeLine(p.value);
      }
    }
    assert rows[..|rows|] == rows;
  }

  /** The body of the row loop: a row of two cells gives its two stripped
      texts, any other row nothing. */
  method ScrapProgrammeRow(row: seq<string>) returns (p: Option<Programme>)
    ensures p == ProgrammeOf(row)
  {
    var cells := C.StripAll(row);
    if |cells| != 2 {
      return None;
    }
    p := Some(Programme(Strip(cells[0]), Strip(cells[1])));
  }

  /** One more row adds its programme, if it gives one. */
  lemma ProgrammesStep(rows: seq<seq<string>>, i: nat)
    requires i < |rows|
    ensures Programmes(rows[..i + 1]) == Programmes(rows[..i]) + match ProgrammeOf(rows[i]) { case None => [] case Some(p) => [p] }
  {
    var opts := ProgrammeOptions(rows);
    assert ProgrammeOptions(rows[..i + 1]) == opts[..i + 1];
    assert ProgrammeOptions(rows[..i]) == opts[..i];
    SomesPrefix(opts, i);
  }

  /** So one more row adds the line of its programme, if it gives one. */
  lemma ProgrammesTextStep(rows: seq<seq<string>>, i: nat)
    requires i < |rows|
    ensures var p := ProgrammeOf(rows[i]);
      ProgrammesText(Programmes(rows[..i + 1]))
        == ProgrammesText(Programmes(rows[..i])) + if p.Some? then ProgrammeLine(p.value) else ""
  {
    ProgrammesStep(rows, i);
    var ps := Programmes(rows[..i]);
    match ProgrammeOf(rows[i])
    case None =>
      assert ps + [] == ps;
    case Some(p) =>
      assert (ps + [p])[..|ps|] == ps;
  }

  /** A two-cell row gives the programme of its two texts, stripped once:
      the second strip of the loop changes nothing. */
  lemma ProgrammeRow(a: string, b: string)
    ensures ProgrammeOf([a, b]) == Some(Programme(Strip(a), Strip(b)))
  {
    StripIdempotent(Python, a);
    StripIdempotent(Python, b);
  }

  /** A programme line holds the code and the name between `|` and before
      the newline, so it is read back as the programme. */
  lemma ProgrammeLineFields(p: Programme)
    requires '|' !in p.code && '|' !in p.name
    ensures var line := ProgrammeLine(p);
      line[|line| - 1] == '\n' && Split(line[..|line| - 1], "|") == [p.code, p.name]
  {
    var line := ProgrammeLine(p);
    assert line[..|line| - 1] == p.code + "|" + p.name;
    SplitAfterPiece(p.code, p.name, '|');
    NotContainsStartingWith(p.name, "|");
  }

  /** A programme is listed for exactly the rows of two cells. */
  lemma ProgrammesRows(rows: seq<seq<string>>, p: Programme)
    ensures p in Programmes(rows) <==>
      exists k :: 0 <= k < |rows| && ProgrammeOf(rows[k]) == Some(p)
  {
    var opts := ProgrammeOptions(rows);
    SomesMember(opts, p);
    assert forall k :: 0 <= k < |rows| ==> opts[k] == ProgrammeOf(rows[k]);
  }
}
