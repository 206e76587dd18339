/** The merges of the legacy `run.py` that keep the course file in step with
    the lesson file: the course lines added for lessons whose course is
    missing, the first-line-per-code dedupe of the course file, and the
    secured suffix of those added lines that survives a rewrite of the
    course file. File contents are parameters: a file is its list of lines,
    each with its newline. */
module LegacyRows {
  import opened Wrappers
  import opened Text
  import R = RowFormat

  /** The line that opens the block of course lines added for lessons (its
      leading `#` is written apart so that the verifier sees it). */
  const Warning: string := "#" + " FOLLOWING LINES WHERE ADDED FOR THE MISSING LESSONS. \n"

  // ---------------------------------------------------------------- dedupe

  /** The key the dedupe files a line under. A line with `#` in it is keyed
      by the output list itself, the same object for every such line, so all
      of them share one key; any other line is keyed by its text before the
      first `|`. */
  datatype Key = Code(code: string) | Comment

  function KeyOf(line: string): Key {
    if '#' in line then Comment else Code(Split(line, "|")[0])
  }

  function Keys(lines: seq<string>): (r: seq<Key>)
    ensures |r| == |lines| && forall k :: 0 <= k < |lines| ==> r[k] == KeyOf(lines[k])
  {
    seq(|lines|, k requires 0 <= k < |lines| => KeyOf(lines[k]))
  }

  /** The lines the dedupe keeps: each line whose key no kept line has. */
  function Dedupe(lines: seq<string>): seq<string> {
    if lines == [] then []
    else
      var prev := Dedupe(lines[..|lines| - 1]);
      if KeyOf(lines[|lines| - 1]) in Keys(prev) then prev else prev + [lines[|lines| - 1]]
  }

  /** The dedupe loop of `save_lesson_rows`, with the list of keys seen. */
  method DedupeLines(desired: seq<string>) returns (kept: seq<string>)
    ensures kept == Dedupe(desired)
  {
    kept := [];
    var codes: seq<Key> := [];
    var i := 0;
    while i < |desired|
      invariant 0 <= i <= |desired|
      invariant kept == Dedupe(desired[..i]) && codes == Keys(kept)
    {
      var code := KeyOf(desired[i]);
      assert desired[..i + 1][..i] == desired[..i];
      if code !in codes {
        kept := kept + [desired[i]];
        codes := codes + [code];
      }
      i := i + 1;
    }
    assert desired[..i] == desired;
  }

  /** No two kept lines share a key. */
  lemma {:induction false} DedupeDistinct(lines: seq<string>)
    ensures forall i, j :: 0 <= i < j < |Dedupe(lines)| ==> KeyOf(Dedupe(lines)[i]) != KeyOf(Dedupe(lines)[j])
  {
    if lines != [] {
      var n := |lines| - 1;
      var prev := Dedupe(lines[..n]);
      DedupeDistinct(lines[..n]);
      if KeyOf(lines[n]) !in Keys(prev) {
        var r := prev + [lines[n]];
        assert Dedupe(lines) == r;
        forall i, j | 0 <= i < j < |r| ensures KeyOf(r[i]) != KeyOf(r[j]) {
          if j == |prev| {
            assert Keys(prev)[i] == KeyOf(prev[i]);
          } else {
            assert r[i] == prev[i] && r[j] == prev[j];
          }
        }
      } else {
        assert Dedupe(lines) == prev;
      }
    }
  }

  /** Every kept line is a line of the input. */
  lemma {:induction false} DedupeFromInput(lines: seq<string>)
    ensures forall k :: 0 <= k < |Dedupe(lines)| ==> Dedupe(lines)[k] in lines
  {
    if lines != [] {
      var n := |lines| - 1;
      DedupeFromInput(lines[..n]);
      forall k | 0 <= k < |Dedupe(lines)| ensures Dedupe(lines)[k] in lines {
        if k < |Dedupe(lines[..n])| {
          assert Dedupe(lines[..n])[k] in lines[..n];
        }
      }
    }
  }

  /** Every key of the input is the key of a kept line. */
  lemma DedupeCovers(lines: seq<string>)
    ensures forall j :: 0 <= j < |lines| ==> KeyOf(lines[j]) in Keys(Dedupe(lines))
  {
    forall j | 0 <= j < |lines| ensures KeyOf(lines[j]) in Keys(Dedupe(lines)) {
      DedupeCoversAt(lines, j);
    }
  }

  lemma {:induction false} DedupeCoversAt(lines: seq<string>, j: nat)
    requires j < |lines|
    ensures KeyOf(lines[j]) in Keys(Dedupe(lines))
  {
    var n := |lines| - 1;
    DedupeStep(lines);
    if j < n {
      assert lines[..n][j] == lines[j];
      DedupeCoversAt(lines[..n], j);
    }
  }

  /** One more line keeps every key seen and adds its own. */
  lemma DedupeStep(lines: seq<string>)
    requires lines != []
    ensures var n := |lines| - 1;
      (forall x :: x in Keys(Dedupe(lines[..n])) ==> x in Keys(Dedupe(lines)))
      && KeyOf(lines[n]) in Keys(Dedupe(lines))
  {
    var n := |lines| - 1;
    var prev, last := Dedupe(lines[..n]), lines[n];
    assert Dedupe(lines) == if KeyOf(last) in Keys(prev) then prev else prev + [last];
    KeysSnoc(prev, last);
  }

  lemma KeysSnoc(xs: seq<string>, l: string)
    ensures Keys(xs + [l]) == Keys(xs) + [KeyOf(l)]
  {
    var ys := xs + [l];
    assert forall k :: 0 <= k < |xs| ==> ys[k] == xs[k];
    assert ys[|xs|] == l;
  }

  /** The first line with a key is kept. */
  lemma {:induction false} DedupeKeepsFirst(lines: seq<string>, j: nat)
    requires j < |lines| && forall i :: 0 <= i < j ==> KeyOf(lines[i]) != KeyOf(lines[j])
    ensures lines[j] in Dedupe(lines)
  {
    var n := |lines| - 1;
    if j < n {
      assert lines[..n][j] == lines[j];
      DedupeKeepsFirst(lines[..n], j);
    } else {
      DedupeFromInput(lines[..n]);
    }
  }

  /** Only the first `#`-line survives the dedupe: it is kept, and every
      kept line with a `#` is that line. */
  lemma OnlyFirstCommentKept(lines: seq<string>, j: nat)
    requires j < |lines| && '#' in lines[j] && forall i :: 0 <= i < j ==> '#' !in lines[i]
    ensures lines[j] in Dedupe(lines)
    ensures forall k :: 0 <= k < |Dedupe(lines)| && '#' in Dedupe(lines)[k] ==> Dedupe(lines)[k] == lines[j]
  {
    DedupeKeepsFirst(lines, j);
    DedupeDistinct(lines);
    var r := Dedupe(lines);
    var m :| 0 <= m < |r| && r[m] == lines[j];
    forall k | 0 <= k < |r| && '#' in r[k] ensures r[k] == lines[j] {
    }
  }

  /** The first line with each key is the kept line with that key. */
  lemma DedupeFirstPerKey(lines: seq<string>, j: nat)
    requires j < |lines| && forall i :: 0 <= i < j ==> KeyOf(lines[i]) != KeyOf(lines[j])
    ensures forall k :: 0 <= k < |Dedupe(lines)| && KeyOf(Dedupe(lines)[k]) == KeyOf(lines[j]) ==> Dedupe(lines)[k] == lines[j]
  {
    DedupeKeepsFirst(lines, j);
    DedupeDistinct(lines);
    var r := Dedupe(lines);
    var m :| 0 <= m < |r| && r[m] == lines[j];
    forall k | 0 <= k < |r| && KeyOf(r[k]) == KeyOf(lines[j]) ensures r[k] == lines[j] {
    }
  }

  // ---------------------------------------------------------------- course lines for lessons

  /** The course line added for a lesson row's cells: code, course name,
      course restrictions and major restriction. */
  function AddedLine(data: seq<string>): string
    requires |data| >= 14
  {
    R.ExtractFromA(data[1]) + "|" + data[2] + "|" + data[13] + "|" + R.ExtractFromA(data[12]) + "\n"
  }

  /** The lines added so far and the text of the codes added, each followed
      by a space. */
  datatype Added = Added(lines: seq<string>, codes: string)

  /** The loop of `save_lesson_rows` over the rows' cells. A code is added
      unless it occurs as a substring of the text searched, which is the
      course file text followed by the codes added so far; the course file
      text is read after the file has been consumed by `readlines` and is
      empty, so only the codes added so far are searched. */
  function MissingAsWritten(cells: seq<seq<string>>): Result<Added> {
    if cells == [] then Ok(Added([], ""))
    else match MissingAsWritten(cells[..|cells| - 1])
      case Err(e) => Err(e)
      case Ok(prev) =>
        var data := cells[|cells| - 1];
        if |data| < 2 then Err("IndexError")
        else
          var code := R.ExtractFromA(data[1]);
          if Contains(prev.codes, code) then Ok(prev)
          else if |data| < 14 then Err("IndexError")
          else Ok(Added(prev.lines + [AddedLine(data)], prev.codes + code + " "))
  }

  /** The loop itself, with the added lines and the text of codes added. */
  method MissingCourseLines(cells: seq<seq<string>>) returns (r: Result<Added>)
    ensures r == MissingAsWritten(cells)
  {
    var linesToAdd: seq<string> := [];
    var codesAdded := "";
    var i := 0;
    while i < |cells|
      invariant 0 <= i <= |cells|
      invariant MissingAsWritten(cells[..i]) == Ok(Added(linesToAdd, codesAdded))
    {
      var data := cells[i];
      assert cells[..i + 1][..i] == cells[..i];
      if |data| < 2 {
        MissingStops(cells, i);
        return Err("IndexError");
      }
      var code := R.ExtractFromA(data[1]);
      if !Contains(codesAdded, code) {
        if |data| < 14 {
          MissingStops(cells, i);
          return Err("IndexError");
        }
        linesToAdd := linesToAdd + [AddedLine(data)];
        codesAdded := codesAdded + code + " ";
      }
      i := i + 1;
    }
    assert cells[..i] == cells;
    r := Ok(Added(linesToAdd, codesAdded));
  }

  /** Once a row raises, the whole loop raises the same error. */
  lemma {:induction false} MissingStops(cells: seq<seq<string>>, i: nat)
    requires i < |cells| && MissingAsWritten(cells[..i + 1]).Err?
    ensures MissingAsWritten(cells) == MissingAsWritten(cells[..i + 1])
    decreases |cells| - i
  {
    if i + 1 < |cells| {
      assert cells[..|cells| - 1][..i + 1] == cells[..i + 1];
      MissingStops(cells[..|cells| - 1], i);
    } else {
      assert cells[..i + 1] == cells;
    }
  }

  /** The step as evidently intended: a code is added unless it is, as a
      whole, the code of a course file line or a code added before. */
  datatype AddedCodes = AddedCodes(lines: seq<string>, codes: seq<string>)

  function MissingIntended(known: seq<string>, cells: seq<seq<string>>): Result<AddedCodes> {
    if cells == [] then Ok(AddedCodes([], []))
    else match MissingIntended(known, cells[..|cells| - 1])
      case Err(e) => Err(e)
      case Ok(prev) =>
        var data := cells[|cells| - 1];
        if |data| < 2 then Err("IndexError")
        else
          var code := R.ExtractFromA(data[1]);
          if code in prev.codes || Code(code) in Keys(known) then Ok(prev)
          else if |data| < 14 then Err("IndexError")
          else Ok(AddedCodes(prev.lines + [AddedLine(data)], prev.codes + [code]))
  }

  /** The code of each row's course. */
  function RowCode(data: seq<string>): string
    requires |data| >= 2
  {
    R.ExtractFromA(data[1])
  }

  /** Under the intended check, rows of fourteen cells never raise, and
      each added line starts with its code and a `|`. */
  lemma {:induction false} MissingIntendedOk(known: seq<string>, cells: seq<seq<string>>)
    requires forall k :: 0 <= k < |cells| ==> |cells[k]| >= 14
    ensures MissingIntended(known, cells).Ok?
    ensures var a := MissingIntended(known, cells).value;
      |a.lines| == |a.codes| && forall i :: 0 <= i < |a.lines| ==> a.codes[i] + "|" <= a.lines[i]
  {
    if cells != [] {
      var n := |cells| - 1;
      forall k | 0 <= k < n ensures |cells[..n][k]| >= 14 {
        assert cells[..n][k] == cells[k];
      }
      MissingIntendedOk(known, cells[..n]);
    }
  }

  /** Under the intended check every row's course is either in the course
      file or added. */
  lemma {:induction false} MissingIntendedCovers(known: seq<string>, cells: seq<seq<string>>)
    requires forall k :: 0 <= k < |cells| ==> |cells[k]| >= 14
    ensures MissingIntended(known, cells).Ok?
    ensures forall k :: 0 <= k < |cells| ==>
      RowCode(cells[k]) in MissingIntended(known, cells).value.codes || Code(RowCode(cells[k])) in Keys(known)
  {
    MissingIntendedGrows(known, cells, 0);
    forall k | 0 <= k < |cells|
      ensures RowCode(cells[k]) in MissingIntended(known, cells).value.codes || Code(RowCode(cells[k])) in Keys(known)
    {
      var pre := cells[..k + 1];
      MissingIntendedGrows(known, cells, k);
      MissingIntendedGrows(known, cells, k + 1);
      assert pre[..k] == cells[..k] && pre[k] == cells[k];
      MissingIntendedStep(known, pre);
    }
  }

  /** The codes added for the first `j` rows are still added for all of
      them. */
  lemma {:induction false} MissingIntendedGrows(known: seq<string>, cells: seq<seq<string>>, j: nat)
    requires forall k :: 0 <= k < |cells| ==> |cells[k]| >= 14
    requires j <= |cells|
    ensures MissingIntended(known, cells[..j]).Ok? && MissingIntended(known, cells).Ok?
    ensures forall c :: c in MissingIntended(known, cells[..j]).value.codes ==> c in MissingIntended(known, cells).value.codes
    decreases |cells|
  {
    if j < |cells| {
      var n := |cells| - 1;
      var init := cells[..n];
      forall k | 0 <= k < n ensures init[k] == cells[k] && |init[k]| >= 14 { }
      assert init[..j] == cells[..j];
      MissingIntendedGrows(known, init, j);
      MissingIntendedStep(known, cells);
    } else {
      assert cells[..j] == cells;
      MissingIntendedOk(known, cells);
    }
  }

  /** One more row of fourteen cells keeps every code added before and adds
      its own code unless the course file has it. */
  lemma MissingIntendedStep(known: seq<string>, cells: seq<seq<string>>)
    requires cells != [] && |cells[|cells| - 1]| >= 14
    requires MissingIntended(known, cells[..|cells| - 1]).Ok?
    ensures MissingIntended(known, cells).Ok?
    ensures var prev := MissingIntended(known, cells[..|cells| - 1]).value.codes;
      var now := MissingIntended(known, cells).value.codes;
      (forall c :: c in prev ==> c in now)
      && (RowCode(cells[|cells| - 1]) in now || Code(RowCode(cells[|cells| - 1])) in Keys(known))
  {
  }

  /** Under the intended check no course is added twice, and none that the
      course file already has. */
  lemma {:induction false} MissingIntendedOnce(known: seq<string>, cells: seq<seq<string>>)
    requires MissingIntended(known, cells).Ok?
    ensures var codes := MissingIntended(known, cells).value.codes;
      (forall i, j :: 0 <= i < j < |codes| ==> codes[i] != codes[j])
      && (forall i :: 0 <= i < |codes| ==> Code(codes[i]) !in Keys(known))
  {
    if cells != [] {
      MissingIntendedOnce(known, cells[..|cells| - 1]);
    }
  }

  /** The substring check drops a course: once a row's code is added, a
      later row whose code occurs inside it (`MAT 101` after `MAT 101E`) is
      found in the codes added and gets no course line. */
  lemma SubstringSkipsCourse(first: seq<string>, second: seq<string>)
    requires |first| >= 14 && |second| >= 14 && RowCode(first) != ""
    requires Contains(RowCode(first), RowCode(second))
    ensures MissingAsWritten([first, second]) == Ok(Added([AddedLine(first)], RowCode(first) + " "))
  {
    var cells := [first, second];
    FirstRowAdded(cells);
    var c := RowCode(first);
    var j := IndexOf(c, RowCode(second)).value;
    assert (c + " ")[j..j + |RowCode(second)|] == c[j..j + |RowCode(second)|];
    assert MatchAt(c + " ", RowCode(second), j);
  }

  /** The first row's course is added by either check, unless its code is
      empty, which the substring check always finds. */
  lemma FirstRowAdded(cells: seq<seq<string>>)
    requires |cells| >= 1 && |cells[0]| >= 14 && RowCode(cells[0]) != ""
    ensures MissingAsWritten(cells[..1]) == Ok(Added([AddedLine(cells[0])], RowCode(cells[0]) + " "))
    ensures MissingIntended([], cells[..1]) == Ok(AddedCodes([AddedLine(cells[0])], [RowCode(cells[0])]))
  {
    var one := cells[..1];
    assert one[..0] == [] && one[0] == cells[0] && |one| == 1;
    assert !Contains("", RowCode(cells[0]));
    assert "" + RowCode(cells[0]) + " " == RowCode(cells[0]) + " ";
    assert [] + [AddedLine(cells[0])] == [AddedLine(cells[0])];
    assert [] + [RowCode(cells[0])] == [RowCode(cells[0])];
  }

  /** The intended check adds both courses whenever their codes differ. */
  lemma WholeCodeAddsCourse(first: seq<string>, second: seq<string>)
    requires |first| >= 14 && |second| >= 14 && RowCode(first) != "" && RowCode(first) != RowCode(second)
    ensures MissingIntended([], [first, second])
         == Ok(AddedCodes([AddedLine(first), AddedLine(second)], [RowCode(first), RowCode(second)]))
  {
    var cells := [first, second];
    FirstRowAdded(cells);
    assert cells[..|cells| - 1] == cells[..1] && cells[1] == second;
    assert Keys([]) == [];
    assert RowCode(second) !in [RowCode(first)];
    assert [AddedLine(first)] + [AddedLine(second)] == [AddedLine(first), AddedLine(second)];
    assert [RowCode(first)] + [RowCode(second)] == [RowCode(first), RowCode(second)];
  }

  /** The course file `save_lesson_rows` writes: the current lines, the
      warning line (the check for it searches the same empty text, so it is
      always inserted) and the added lines, deduped. */
  function LessonCourseFile(current: seq<string>, cells: seq<seq<string>>): Result<seq<string>> {
    match MissingAsWritten(cells)
    case Err(e) => Err(e)
    case Ok(a) => Ok(Dedupe(current + [Warning] + a.lines))
  }

  /** `save_lesson_rows`: the sorted lesson file, then the course file; any
      row that raises makes the save raise. The lesson file is written
      before the course file is merged, so when only the merge raises the
      source has already replaced the lesson file; `Err` here does not
      record that write. */
  function SaveLessonRows(rows: seq<string>, current: seq<string>): Result<(seq<string>, seq<string>)> {
    match R.LessonFileLines(rows)
    case Err(e) => Err(e)
    case Ok(lessons) =>
      match LessonCourseFile(current, seq(|rows|, k requires 0 <= k < |rows| => R.LessonCells(rows[k])))
      case Err(e) => Err(e)
      case Ok(courses) => Ok((lessons, courses))
  }

  /** The course file keeps every course of the current file and every
      added line's key, and no key twice. */
  lemma LessonCourseFileKeys(current: seq<string>, cells: seq<seq<string>>)
    requires LessonCourseFile(current, cells).Ok?
    ensures var file := LessonCourseFile(current, cells).value;
      var added := MissingAsWritten(cells).value.lines;
      (forall j :: 0 <= j < |current| ==> KeyOf(current[j]) in Keys(file))
      && (forall j :: 0 <= j < |added| ==> KeyOf(added[j]) in Keys(file))
      && (forall i, j :: 0 <= i < j < |file| ==> KeyOf(file[i]) != KeyOf(file[j]))
  {
    assert LessonCourseFile(current, cells).value == Dedupe(current + [Warning] + MissingAsWritten(cells).value.lines);
    MergedKeys(current, MissingAsWritten(cells).value.lines);
  }

  lemma MergedKeys(current: seq<string>, added: seq<string>)
    ensures var file := Dedupe(current + [Warning] + added);
      (forall j :: 0 <= j < |current| ==> KeyOf(current[j]) in Keys(file))
      && (forall j :: 0 <= j < |added| ==> KeyOf(added[j]) in Keys(file))
      && (forall i, j :: 0 <= i < j < |file| ==> KeyOf(file[i]) != KeyOf(file[j]))
  {
    var desired := current + [Warning] + added;
    DedupeCovers(desired);
    DedupeDistinct(desired);
    forall j | 0 <= j < |added| ensures KeyOf(added[j]) in Keys(Dedupe(desired)) {
      assert desired[|current| + 1 + j] == added[j];
    }
    forall j | 0 <= j < |current| ensures KeyOf(current[j]) in Keys(Dedupe(desired)) {
      assert desired[j] == current[j];
    }
  }

  /** A course file with no `#`-line gets the warning; one with a `#`-line
      keeps its first `#`-line as the only one. */
  lemma LessonCourseFileWarning(current: seq<string>, cells: seq<seq<string>>)
    requires LessonCourseFile(current, cells).Ok?
    ensures var file := LessonCourseFile(current, cells).value;
      (forall j :: 0 <= j < |current| ==> '#' !in current[j]) ==>
        Warning in file && forall k :: 0 <= k < |file| && '#' in file[k] ==> file[k] == Warning
  {
    if forall j :: 0 <= j < |current| ==> '#' !in current[j] {
      MergedWarning(current, MissingAsWritten(cells).value.lines);
    }
  }

  lemma MergedWarning(current: seq<string>, added: seq<string>)
    requires forall j :: 0 <= j < |current| ==> '#' !in current[j]
    ensures var file := Dedupe(current + [Warning] + added);
      Warning in file && forall k :: 0 <= k < |file| && '#' in file[k] ==> file[k] == Warning
  {
    var desired := current + [Warning] + added;
    assert Warning[0] == '#';
    assert desired[|current|] == Warning;
    forall i | 0 <= i < |current| ensures '#' !in desired[i] {
      assert desired[i] == current[i];
    }
    OnlyFirstCommentKept(desired, |current|);
  }

  // ---------------------------------------------------------------- save_course_rows

  /** A line's text before its first `|`, the code the merge compares. */
  function LineCode(line: string): string {
    Split(line, "|")[0]
  }

  /** `save_course_rows` keeps the saved lines from the first warning line
      on; there are none when no saved line is the warning, or when the
      file cannot be read (an empty `saved`). */
  function SecuredSuffix(saved: seq<string>): (r: seq<string>)
    ensures |r| <= |saved| && r == saved[|saved| - |r|..]
    ensures r != [] ==> r[0] == Warning
  {
    if saved == [] then [] else if saved[0] == Warning then saved else SecuredSuffix(saved[1..])
  }

  /** The secured lines begin at the first warning line, and are empty when
      there is none. */
  lemma {:induction false} SecuredFromFirstWarning(saved: seq<string>)
    ensures SecuredSuffix(saved) == match Position(saved, Warning) case None => [] case Some(i) => saved[i..]
  {
    if saved != [] && saved[0] != Warning {
      SecuredFromFirstWarning(saved[1..]);
      match Position(saved[1..], Warning)
      case None =>
      case Some(i) =>
        assert saved[i + 1..] == saved[1..][i..];
    } else if saved != [] {
      assert saved[0..] == saved;
    }
  }

  /** How many of the new lines share `line`'s code. */
  function Matches(line: string, lines: seq<string>): nat {
    if lines == [] then 0
    else Matches(line, lines[..|lines| - 1]) + if LineCode(lines[|lines| - 1]) == LineCode(line) then 1 else 0
  }

  function Repeat(line: string, n: nat): (r: seq<string>)
    ensures |r| == n
  {
    if n == 0 then [] else Repeat(line, n - 1) + [line]
  }

  /** The removal list: each secured line once for every new line sharing
      its code. */
  function RemoveList(secured: seq<string>, lines: seq<string>): seq<string> {
    if secured == [] then []
    else RemoveList(secured[..|secured| - 1], lines) + Repeat(secured[|secured| - 1], Matches(secured[|secured| - 1], lines))
  }

  /** Index of the first `x` in `xs`. */
  function Position(xs: seq<string>, x: string): (r: Option<nat>)
    ensures r.None? <==> x !in xs
    ensures r.Some? ==> r.value < |xs| && xs[r.value] == x && x !in xs[..r.value]
  {
    if xs == [] then None
    else if xs[0] == x then Some(0)
    else
      var r := Position(xs[1..], x);
      assert r.Some? ==> xs[..r.value + 1] == [xs[0]] + xs[1..][..r.value];
      if r.None? then None else Some(r.value + 1)
  }

  /** `xs.remove(x)`: the list without its first `x`; `None` for the
      `ValueError` raised when there is no `x`. */
  function RemoveFirst(xs: seq<string>, x: string): Option<seq<string>> {
    match Position(xs, x)
    case None => None
    case Some(i) => Some(xs[..i] + xs[i + 1..])
  }

  /** `for r in rs: xs.remove(r)`. */
  function RemoveEach(xs: seq<string>, rs: seq<string>): Result<seq<string>> {
    if rs == [] then Ok(xs)
    else match RemoveEach(xs, rs[..|rs| - 1])
      case Err(e) => Err(e)
      case Ok(ys) =>
        match RemoveFirst(ys, rs[|rs| - 1])
        case None => Err("ValueError")
        case Some(zs) => Ok(zs)
  }

  /** The merged course file as `save_course_rows` writes it: the new lines,
      then what is left of the secured lines after the removals. */
  function MergeCourseLines(lines: seq<string>, saved: seq<string>): Result<seq<string>> {
    var secured := SecuredSuffix(saved);
    match RemoveEach(secured, RemoveList(secured, lines))
    case Err(e) => Err(e)
    case Ok(rest) => Ok(lines + rest)
  }

  /** The merge loops: find the warning line, collect the removal list,
      remove its lines one by one. */
  method MergeSecured(lines: seq<string>, saved: seq<string>) returns (r: Result<seq<string>>)
    ensures r == MergeCourseLines(lines, saved)
  {
    var secured := FindSecured(saved);
    var toRemove := CollectRemovals(secured, lines);
    var rest := RemoveAll(secured, toRemove);
    match rest
    case Err(e) => r := Err(e);
    case Ok(kept) => r := Ok(lines + kept);
  }

  /** The loop that looks for the warning line. */
  method FindSecured(saved: seq<string>) returns (secured: seq<string>)
    ensures secured == SecuredSuffix(saved)
  {
    secured := [];
    var i := 0;
    while i < |saved|
      invariant 0 <= i <= |saved| && SecuredSuffix(saved[i..]) == SecuredSuffix(saved)
    {
      if saved[i] == Warning {
        secured := saved[i..];
        return;
      }
      assert saved[i..][1..] == saved[i + 1..];
      i := i + 1;
    }
  }

  /** The nested loops that collect the removal list. */
  method CollectRemovals(secured: seq<string>, lines: seq<string>) returns (toRemove: seq<string>)
    ensures toRemove == RemoveList(secured, lines)
  {
    toRemove := [];
    var k := 0;
    while k < |secured|
      invariant 0 <= k <= |secured| && toRemove == RemoveList(secured[..k], lines)
    {
      var j := 0;
      while j < |lines|
        invariant 0 <= j <= |lines|
        invariant toRemove == RemoveList(secured[..k], lines) + Repeat(secured[k], Matches(secured[k], lines[..j]))
      {
        assert lines[..j + 1][..j] == lines[..j];
        if LineCode(lines[j]) == LineCode(secured[k]) {
          toRemove := toRemove + [secured[k]];
        }
        j := j + 1;
      }
      assert lines[..j] == lines;
      assert secured[..k + 1][..k] == secured[..k];
      k := k + 1;
    }
    assert secured[..k] == secured;
  }

  /** The loop of removals, which raises at the first line not found. */
  method RemoveAll(secured: seq<string>, toRemove: seq<string>) returns (r: Result<seq<string>>)
    ensures r == RemoveEach(secured, toRemove)
  {
    var rest := secured;
    var m := 0;
    while m < |toRemove|
      invariant 0 <= m <= |toRemove| && RemoveEach(secured, toRemove[..m]) == Ok(rest)
    {
      assert toRemove[..m + 1][..m] == toRemove[..m];
      var next := RemoveFirst(rest, toRemove[m]);
      if next.None? {
        RemoveStops(secured, toRemove, m);
        return Err("ValueError");
      }
      rest := next.value;
      m := m + 1;
    }
    assert toRemove[..m] == toRemove;
    r := Ok(rest);
  }

  /** Once a removal fails, the removals raise. */
  lemma {:induction false} RemoveStops(xs: seq<string>, rs: seq<string>, i: nat)
    requires i < |rs| && RemoveEach(xs, rs[..i + 1]).Err?
    ensures RemoveEach(xs, rs) == RemoveEach(xs, rs[..i + 1])
    decreases |rs| - i
  {
    if i + 1 < |rs| {
      assert rs[..|rs| - 1][..i + 1] == rs[..i + 1];
      RemoveStops(xs, rs[..|rs| - 1], i);
    } else {
      assert rs[..i + 1] == rs;
    }
  }

  // ---------------------------------------------------------------- the merge as intended

  /** The secured lines whose code no new line has. */
  function Unclaimed(secured: seq<string>, lines: seq<string>): seq<string> {
    if secured == [] then []
    else
      var s := secured[|secured| - 1];
      Unclaimed(secured[..|secured| - 1], lines) + if Matches(s, lines) == 0 then [s] else []
  }

  /** The secured lines whose code some new line has. */
  function Claimed(secured: seq<string>, lines: seq<string>): seq<string> {
    if secured == [] then []
    else
      var s := secured[|secured| - 1];
      Claimed(secured[..|secured| - 1], lines) + if Matches(s, lines) > 0 then [s] else []
  }

  /** The merge as evidently intended: a secured line is dropped when a new
      line has its code, however many new lines do. */
  function MergeCourseLinesIntended(lines: seq<string>, saved: seq<string>): seq<string> {
    lines + Unclaimed(SecuredSuffix(saved), lines)
  }

  /** The intended merge keeps exactly the secured lines that no new line
      shares a code with, after all the new lines. */
  lemma {:induction false} UnclaimedExactly(secured: seq<string>, lines: seq<string>)
    ensures forall s :: s in Unclaimed(secured, lines) <==> s in secured && Matches(s, lines) == 0
  {
    if secured != [] {
      var n := |secured| - 1;
      UnclaimedExactly(secured[..n], lines);
      assert secured == secured[..n] + [secured[n]];
    }
  }

  lemma {:induction false} ClaimedExactly(secured: seq<string>, lines: seq<string>)
    ensures forall s :: s in Claimed(secured, lines) ==> Matches(s, lines) > 0
  {
    if secured != [] {
      ClaimedExactly(secured[..|secured| - 1], lines);
    }
  }

  lemma {:induction false} ClaimedUnclaimed(secured: seq<string>, lines: seq<string>)
    ensures multiset(secured) == multiset(Claimed(secured, lines)) + multiset(Unclaimed(secured, lines))
  {
    if secured != [] {
      var n := |secured| - 1;
      ClaimedUnclaimed(secured[..n], lines);
      assert secured == secured[..n] + [secured[n]];
    }
  }

  lemma {:induction false} UnclaimedConcat(a: seq<string>, b: seq<string>, lines: seq<string>)
    ensures Unclaimed(a + b, lines) == Unclaimed(a, lines) + Unclaimed(b, lines)
  {
    if b != [] {
      var n := |b| - 1;
      UnclaimedConcat(a, b[..n], lines);
      assert (a + b)[..|a + b| - 1] == a + b[..n];
    } else {
      assert a + b == a;
    }
  }

  lemma {:induction false} UnclaimedAll(xs: seq<string>, lines: seq<string>)
    requires forall k :: 0 <= k < |xs| ==> Matches(xs[k], lines) == 0
    ensures Unclaimed(xs, lines) == xs
  {
    if xs != [] {
      var n := |xs| - 1;
      UnclaimedAll(xs[..n], lines);
      assert xs == xs[..n] + [xs[n]];
    }
  }

  /** When no secured line shares its code with two new lines, the removal
      list is the claimed lines. */
  lemma {:induction false} RemoveListClaimed(secured: seq<string>, lines: seq<string>)
    requires forall k :: 0 <= k < |secured| ==> Matches(secured[k], lines) <= 1
    ensures RemoveList(secured, lines) == Claimed(secured, lines)
  {
    if secured != [] {
      var n := |secured| - 1;
      forall k | 0 <= k < n ensures Matches(secured[..n][k], lines) <= 1 {
        assert secured[..n][k] == secured[k];
      }
      RemoveListClaimed(secured[..n], lines);
      if Matches(secured[n], lines) == 1 {
        assert Repeat(secured[n], 1) == [secured[n]];
      }
    }
  }

  /** Removing a line that is there succeeds and takes one copy of it. */
  lemma RemoveOne(ys: seq<string>, x: string)
    requires x in ys
    ensures RemoveFirst(ys, x).Some?
    ensures multiset(RemoveFirst(ys, x).value) == multiset(ys) - multiset{x}
  {
    var i := Position(ys, x).value;
    assert ys == ys[..i] + [x] + ys[i + 1..];
  }

  /** Removing a claimed line leaves the unclaimed lines as they were. */
  lemma RemoveClaimed(ys: seq<string>, x: string, lines: seq<string>)
    requires x in ys && Matches(x, lines) > 0
    ensures RemoveFirst(ys, x).Some? && Unclaimed(RemoveFirst(ys, x).value, lines) == Unclaimed(ys, lines)
  {
    var i := Position(ys, x).value;
    var a, b := ys[..i], ys[i + 1..];
    assert ys == a + [x] + b;
    UnclaimedConcat(a, b, lines);
    UnclaimedConcat(a + [x], b, lines);
    assert (a + [x])[..|a + [x]| - 1] == a;
    assert Unclaimed(a + [x], lines) == Unclaimed(a, lines);
  }

  /** Removing claimed lines, each no more often than it is claimed, always
      succeeds and leaves the unclaimed lines as they were. */
  lemma {:induction false} RemoveEachClaimed(xs: seq<string>, rs: seq<string>, lines: seq<string>)
    requires multiset(rs) <= multiset(Claimed(xs, lines))
    ensures RemoveEach(xs, rs).Ok?
    ensures multiset(RemoveEach(xs, rs).value) == multiset(xs) - multiset(rs)
    ensures Unclaimed(RemoveEach(xs, rs).value, lines) == Unclaimed(xs, lines)
  {
    if rs != [] {
      var n := |rs| - 1;
      var x := rs[n];
      NextClaimed(xs, rs, lines);
      RemoveEachClaimed(xs, rs[..n], lines);
      var ys := RemoveEach(xs, rs[..n]).value;
      RemoveOne(ys, x);
      RemoveClaimed(ys, x, lines);
    }
  }

  /** The last line of a claimed removal list is claimed, and is still
      there once the lines before it are removed. */
  lemma NextClaimed(xs: seq<string>, rs: seq<string>, lines: seq<string>)
    requires rs != [] && multiset(rs) <= multiset(Claimed(xs, lines))
    ensures var n := |rs| - 1;
      multiset(rs[..n]) <= multiset(Claimed(xs, lines))
      && Matches(rs[n], lines) > 0 && (multiset(xs) - multiset(rs[..n]))[rs[n]] >= 1
      && multiset(xs) - multiset(rs) == multiset(xs) - multiset(rs[..n]) - multiset{rs[n]}
  {
    var n := |rs| - 1;
    var x := rs[n];
    var cl := Claimed(xs, lines);
    assert rs == rs[..n] + [x];
    assert multiset(rs) == multiset(rs[..n]) + multiset{x};
    ClaimedUnclaimed(xs, lines);
    assert multiset(cl) <= multiset(xs);
    SubMultisetLast(multiset(xs), multiset(rs[..n]), x, multiset(cl));
    assert x in cl;
    ClaimedExactly(xs, lines);
  }

  /** When `m + {x}` fits within `c`, and `c` within `a`: `m` fits within
      `c`, `x` is in `c`, `x` is still in `a` after taking away `m`, and
      taking away `m` and then `x` is taking away `m + {x}`. */
  lemma SubMultisetLast(a: multiset<string>, m: multiset<string>, x: string, c: multiset<string>)
    requires m + multiset{x} <= c && c <= a
    ensures m <= c && x in c && (a - m)[x] >= 1 && a - (m + multiset{x}) == a - m - multiset{x}
  {
    assert (m + multiset{x})[x] == m[x] + 1;
  }

  /** When every secured line shares its code with at most one new line,
      the merge as written succeeds and is the intended merge. */
  lemma MergeAgreesWhenUnique(lines: seq<string>, saved: seq<string>)
    requires forall k :: 0 <= k < |SecuredSuffix(saved)| ==> Matches(SecuredSuffix(saved)[k], lines) <= 1
    ensures MergeCourseLines(lines, saved) == Ok(MergeCourseLinesIntended(lines, saved))
  {
    var secured := SecuredSuffix(saved);
    RemoveListClaimed(secured, lines);
    RemoveEachClaimed(secured, Claimed(secured, lines), lines);
    var rest := RemoveEach(secured, Claimed(secured, lines)).value;
    ClaimedUnclaimed(secured, lines);
    assert multiset(rest) == multiset(Unclaimed(secured, lines));
    UnclaimedExactly(secured, lines);
    forall k | 0 <= k < |rest| ensures Matches(rest[k], lines) == 0 {
      assert rest[k] in multiset(rest);
    }
    UnclaimedAll(rest, lines);
  }

  /** Two new lines with the code of one secured line put that line twice on
      the removal list, and the second removal raises `ValueError`. */
  lemma SharedCodeRaises(secured: string, first: string, second: string)
    requires LineCode(first) == LineCode(secured) && LineCode(second) == LineCode(secured)
    requires LineCode(Warning) != LineCode(secured)
    ensures MergeCourseLines([first, second], [Warning, secured]) == Err("ValueError")
  {
    var lines := [first, second];
    var saved := [Warning, secured];
    assert SecuredSuffix(saved) == saved;
    TwoMatches(secured, lines);
    NoMatches(Warning, lines);
    RemovalTwice(saved, lines);
    assert secured != Warning;
    RemoveTwiceRaises(Warning, secured);
  }

  /** Removing `s` twice from `[w, s]` raises on the second removal. */
  lemma RemoveTwiceRaises(w: string, s: string)
    requires w != s
    ensures RemoveEach([w, s], [s, s]) == Err("ValueError")
  {
    var xs := [w, s];
    assert Position(xs[1..], s) == Some(0);
    assert Position(xs, s) == Some(1);
    assert xs[..1] + xs[2..] == [w];
    assert RemoveFirst(xs, s) == Some([w]);
    assert [s, s][..1] == [s];
    assert [s][..0] == [];
    assert RemoveEach(xs, [s]) == Ok([w]);
    assert Position([w], s) == None;
  }

  lemma TwoMatches(secured: string, lines: seq<string>)
    requires |lines| == 2 && LineCode(lines[0]) == LineCode(secured) && LineCode(lines[1]) == LineCode(secured)
    ensures Matches(secured, lines) == 2
  {
    assert lines[..1][..0] == [] && lines[..1][0] == lines[0];
    assert Matches(secured, lines[..1]) == 1;
    assert lines[..|lines| - 1] == lines[..1];
  }

  lemma RemovalTwice(saved: seq<string>, lines: seq<string>)
    requires |saved| == 2 && Matches(saved[0], lines) == 0 && Matches(saved[1], lines) == 2
    ensures RemoveList(saved, lines) == [saved[1], saved[1]]
  {
    assert saved[..1][..0] == [] && saved[..1][0] == saved[0];
    assert RemoveList(saved[..1], lines) == [];
    assert Repeat(saved[1], 2) == [saved[1], saved[1]];
  }

  lemma {:induction false} NoMatches(line: string, lines: seq<string>)
    requires forall k :: 0 <= k < |lines| ==> LineCode(lines[k]) != LineCode(line)
    ensures Matches(line, lines) == 0
  {
    if lines != [] {
      NoMatches(line, lines[..|lines| - 1]);
    }
  }

  // ---------------------------------------------------------------- the whole save

  /** Each course row's line with its newline, in row order; the first row
      with fewer than four cells raises. */
  function CourseLines(rows: seq<string>): (r: Result<seq<string>>)
    ensures r.Ok? ==> |r.value| == |rows|
  {
    if rows == [] then Ok([])
    else match CourseLines(rows[..|rows| - 1])
      case Err(e) => Err(e)
      case Ok(prev) =>
        match R.ProcessCourseRow(rows[|rows| - 1])
        case Err(e) => Err(e)
        case Ok(line) => Ok(prev + [line + "\n"])
  }

  /** `save_course_rows` of the legacy `run.py`: the sorted new lines, then
      the secured lines left after the removals. */
  function SaveCourseRows(rows: seq<string>, saved: seq<string>): Result<seq<string>> {
    match CourseLines(rows)
    case Err(e) => Err(e)
    case Ok(lines) => MergeCourseLines(R.Sort(lines), saved)
  }

  /** A written course file starts with the new lines, sorted, and goes on
      with secured lines only. */
  lemma SaveCourseRowsShape(rows: seq<string>, saved: seq<string>)
    requires SaveCourseRows(rows, saved).Ok?
    ensures var lines := CourseLines(rows).value;
      var file := SaveCourseRows(rows, saved).value;
      |file| >= |lines| && file[..|lines|] == R.Sort(lines)
      && R.Sorted(file[..|lines|]) && multiset(file[..|lines|]) == multiset(lines)
      && forall k :: |lines| <= k < |file| ==> file[k] in SecuredSuffix(saved)
  {
    var lines := CourseLines(rows).value;
    var sorted := R.Sort(lines);
    R.SortSorted(lines);
    var secured := SecuredSuffix(saved);
    var rest := RemoveEach(secured, RemoveList(secured, sorted)).value;
    assert |sorted| == |multiset(sorted)| == |lines|;
    RemoveEachWithin(secured, RemoveList(secured, sorted));
    var file := SaveCourseRows(rows, saved).value;
    assert file == sorted + rest;
    assert file[..|lines|] == sorted;
    forall k | |lines| <= k < |file| ensures file[k] in secured {
      assert file[k] == rest[k - |lines|];
    }
  }

  /** Removals only ever take lines away. */
  lemma {:induction false} RemoveEachWithin(xs: seq<string>, rs: seq<string>)
    requires RemoveEach(xs, rs).Ok?
    ensures forall k :: 0 <= k < |RemoveEach(xs, rs).value| ==> RemoveEach(xs, rs).value[k] in xs
  {
    if rs != [] {
      var n := |rs| - 1;
      RemoveEachWithin(xs, rs[..n]);
      var ys := RemoveEach(xs, rs[..n]).value;
      var i := Position(ys, rs[n]).value;
      var zs := ys[..i] + ys[i + 1..];
      forall k | 0 <= k < |zs| ensures zs[k] in xs {
        if k < i { assert zs[k] == ys[k]; } else { assert zs[k] == ys[k + 1]; }
      }
    }
  }
}
