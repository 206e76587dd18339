/** `#createSemesters` of the browser-side `ITUHelper`, as a state machine
    over the lines of the course-plan file: `# F`, `## P` and `### I`
    headers set the faculty, program and iteration; every other line is one
    semester of `=`-separated slots, resolved through `findCourseByCode`.
    Once eight semesters follow a header they are stored under
    faculty/program/iteration. */
module ItuSemesters {
  import opened Wrappers
  import opened Text
  import D = OrderedDict
  import opened ItuCourses

  /** A slot of a parsed semester: a course, or a `CourseGroup` of the
      looked-up options (`null` kept) with its title. */
  datatype Entry = CourseRef(course: nat) | Group(options: seq<Option<nat>>, title: string)

  type Semester = seq<Entry>
  type Iterations = D.ODict<string, seq<Semester>>
  type Programs = D.ODict<string, Iterations>
  type Faculties = D.ODict<string, Programs>

  /** `#semesters`, the catalogue the lookups grow, and the loop variables
      `currentFaculty`, `currentProgram`, `currentIteration`,
      `currentSemesters`. */
  datatype ParseState = ParseState(
    reg: Registry,
    semesters: Faculties,
    faculty: string,
    program: string,
    iteration: string,
    current: seq<Semester>)

  /** The state before the first line. */
  function Start(reg: Registry): ParseState {
    ParseState(reg, [], "", "", "", [])
  }

  /** A state, and the error that stopped the loop, if any. */
  datatype Outcome = Outcome(st: ParseState, error: Option<string>)

  /** `semesters[f][p][i]`, when all three keys are present. */
  function Get3(d: Faculties, f: string, p: string, i: string): Option<seq<Semester>> {
    match D.Get2(d, f, p)
    case Some(its) => D.Get(its, i)
    case None => None
  }

  // ---------------------------------------------------------------- lines

  /** `lines[i].replace("\r", "").trim()`. */
  function PlanLine(line: string): string {
    Trim(CleanLine(line))
  }

  /** `line.includes('# ')`. */
  predicate IsHeader(line: string) {
    Contains(line, "# ")
  }

  /** `line.split(' ')[0].length`: the number of `#`s of a header. */
  function Level(line: string): nat {
    |Split(line, " ")[0]|
  }

  /** `line.slice(hashtagCount + 1).trim()`. */
  function Title(line: string): string {
    if Level(line) + 1 <= |line| then Trim(line[Level(line) + 1..]) else ""
  }

  // ---------------------------------------------------------------- headers

  /** The programs of `programs` once `currentProgram` is dropped if it has
      no iteration (`delete` when `Object.keys(...).length` is 0). */
  function DropIfEmpty(programs: Programs, program: string): Programs {
    match D.Get(programs, program)
    case Some(its) => if |its| == 0 then D.Remove(programs, program) else programs
    case None => programs
  }

  /** A header line: the semester list is reset; level 1 starts an empty
      faculty, level 2 drops the previous program if it is empty and starts
      an empty one (raising when the current faculty does not exist), level
      3 names the iteration, other levels do nothing more. */
  function Header(st: ParseState, line: string): (r: Outcome)
    ensures Valid(st.reg) ==> Valid(r.st.reg)
    ensures st.reg.courses <= r.st.reg.courses {
    var title := Title(line);
    var st1 := st.(current := []);
    if Level(line) == 1 then
      Outcome(st1.(faculty := title, semesters := D.Set(st.semesters, title, [])), None)
    else if Level(line) == 2 then
      match D.Get(st.semesters, st.faculty)
      case None => Outcome(st1, Some("TypeError"))
      case Some(programs) =>
        Outcome(st1.(program := title,
                     semesters := D.Set(st.semesters, st.faculty, D.Set(DropIfEmpty(programs, st.program), title, []))), None)
    else if Level(line) == 3 then
      Outcome(st1.(iteration := title), None)
    else
      Outcome(st1, None)
  }

  // ---------------------------------------------------------------- semester lines

  /** A catalogue after some lookups, what they gave, and the error raised. */
  datatype Parsed<T> = Parsed(reg: Registry, value: T, error: Option<string>)

  /** `selectiveCourseNames.forEach(...)`: every option is looked up, `null`
      kept. */
  function Options(reg: Registry, names: seq<string>): (r: (Registry, seq<Option<nat>>))
    ensures |r.1| == |names|
    ensures ("" in r.0.dict) == ("" in reg.dict)
    ensures Valid(reg) ==> Valid(r.0)
    ensures reg.courses <= r.0.courses
  {
    if names == [] then (reg, [])
    else
      var prev := Options(reg, names[..|names| - 1]);
      var lk := Find(prev.0, names[|names| - 1]);
      (lk.reg, prev.1 + [lk.course])
  }

  /** The option names of a group slot's text: after the first `[` and
      first `]` are dropped, the part after the first `*`, without its first
      `(` and first `)`, split on `|`; none when there is no `*`. */
  function GroupParts(piece: string): Option<(string, seq<string>)> {
    var data := Split(ReplaceFirst(ReplaceFirst(piece, "[", ""), "]", ""), "*");
    if |data| < 2 then None
    else Some((data[0], Split(ReplaceFirst(ReplaceFirst(data[1], "(", ""), ")", ""), "|")))
  }

  /** One `=`-separated slot: a group when it starts with `[` (raising when
      it has no `*`), otherwise a course, skipped when the lookup is `null`. */
  function Piece(reg: Registry, piece: string): (r: Parsed<Option<Entry>>)
    ensures Valid(reg) ==> Valid(r.reg)
    ensures ("" in r.reg.dict) == ("" in reg.dict)
    ensures reg.courses <= r.reg.courses
  {
    if piece != [] && piece[0] == '[' then
      match GroupParts(piece)
      case None => Parsed(reg, None, Some("TypeError"))
      case Some(parts) =>
        var o := Options(reg, parts.1);
        Parsed(o.0, Some(Group(o.1, parts.0)), None)
    else
      var lk := Find(reg, piece);
      Parsed(lk.reg, match lk.course case Some(i) => Some(CourseRef(i)) case None => None, None)
  }

  /** The slots of one semester line, up to the first that raises. */
  function Pieces(reg: Registry, pieces: seq<string>): (r: Parsed<Semester>)
    ensures Valid(reg) ==> Valid(r.reg)
    ensures ("" in r.reg.dict) == ("" in reg.dict)
    ensures reg.courses <= r.reg.courses
  {
    if pieces == [] then Parsed(reg, [], None)
    else
      var prev := Pieces(reg, pieces[..|pieces| - 1]);
      if prev.error.Some? then prev
      else
        var p := Piece(prev.reg, pieces[|pieces| - 1]);
        Parsed(p.reg, prev.value + (match p.value case Some(e) => [e] case None => []), p.error)
  }

  /** `currentSemesters.length == 8` stores the list under the current
      faculty, program and iteration, raising when the faculty or program is
      missing. The source stores the list object itself, so every later
      semester pushed before the next header shows in the stored entry too;
      here that is a fresh store after each such push. */
  function Store(st: ParseState): (r: Outcome)
    ensures Valid(st.reg) ==> Valid(r.st.reg)
    ensures st.reg.courses <= r.st.reg.courses {
    match D.Get(st.semesters, st.faculty)
    case None => Outcome(st, Some("TypeError"))
    case Some(programs) =>
      match D.Get(programs, st.program)
      case None => Outcome(st, Some("TypeError"))
      case Some(its) =>
        Outcome(st.(semesters := D.Set(st.semesters, st.faculty, D.Set(programs, st.program, D.Set(its, st.iteration, st.current)))), None)
  }

  /** A semester line: its slots are parsed and pushed as one semester,
      which is stored from the eighth on. */
  function Plain(st: ParseState, line: string): (r: Outcome)
    ensures Valid(st.reg) ==> Valid(r.st.reg)
    ensures st.reg.courses <= r.st.reg.courses {
    var p := Pieces(st.reg, Split(line, "="));
    if p.error.Some? then Outcome(st.(reg := p.reg), p.error)
    else
      var st2 := st.(reg := p.reg, current := st.current + [p.value]);
      if |st2.current| < 8 then Outcome(st2, None) else Store(st2)
  }

  /** One pass of the loop. */
  function Step(st: ParseState, line: string): (r: Outcome)
    ensures Valid(st.reg) ==> Valid(r.st.reg)
    ensures st.reg.courses <= r.st.reg.courses {
    var l := PlanLine(line);
    if IsHeader(l) then Header(st, l) else Plain(st, l)
  }

  /** The loop over `lines`, stopping at the first error. */
  function Run(st: ParseState, lines: seq<string>): (r: Outcome)
    ensures Valid(st.reg) ==> Valid(r.st.reg)
    ensures st.reg.courses <= r.st.reg.courses {
    if lines == [] then Outcome(st, None)
    else
      var prev := Run(st, lines[..|lines| - 1]);
      if prev.error.Some? then prev else Step(prev.st, lines[|lines| - 1])
  }

  /** `#createSemesters` over `lines`, from an empty `#semesters`. */
  function CreatedSemesters(reg: Registry, lines: seq<string>): Outcome {
    Run(Start(reg), lines)
  }

  // ---------------------------------------------------------------- properties

  /** Once eight semesters follow a header, the stored entry is the current
      semester list: the list object the source stores is the one it keeps
      pushing onto. */
  predicate Stored(st: ParseState) {
    |st.current| >= 8 ==> Get3(st.semesters, st.faculty, st.program, st.iteration) == Some(st.current)
  }

  /** A store succeeds exactly when the current faculty and program exist; it
      then sets the current iteration to the current list, and only that. */
  lemma StoreEffect(st: ParseState)
    ensures Store(st).error.None? <==> D.Get2(st.semesters, st.faculty, st.program).Some?
    ensures Store(st).error.Some? ==> Store(st).st == st
    ensures Store(st).error.None? ==>
              Store(st).st == st.(semesters := Store(st).st.semesters)
              && forall f, p, i :: Get3(Store(st).st.semesters, f, p, i)
                                  == if (f, p, i) == (st.faculty, st.program, st.iteration) then Some(st.current)
                                     else Get3(st.semesters, f, p, i)
  {
    match D.Get(st.semesters, st.faculty)
    case None =>
    case Some(programs) =>
      match D.Get(programs, st.program)
      case None =>
      case Some(its) =>
        var its' := D.Set(its, st.iteration, st.current);
        var programs' := D.Set(programs, st.program, its');
        var d := D.Set(st.semesters, st.faculty, programs');
        forall f, p, i
          ensures Get3(d, f, p, i) == if (f, p, i) == (st.faculty, st.program, st.iteration) then Some(st.current)
                                      else Get3(st.semesters, f, p, i)
        {
          D.GetSet(st.semesters, st.faculty, programs', f);
          D.GetSet(programs, st.program, its', p);
          D.GetSet(its, st.iteration, st.current, i);
        }
  }

  /** Every header empties the semester list. Level 1 makes the faculty
      current and empty; level 2 fails exactly when the current faculty does
      not exist, and otherwise makes the program current and empty; level 3
      only names the iteration, and other levels change nothing else. */
  lemma HeaderEffect(st: ParseState, line: string)
    requires IsHeader(PlanLine(line))
    ensures var l := PlanLine(line);
            var o := Step(st, line);
            o.st.current == [] && o.st.reg == st.reg
            && (Level(l) == 1 ==> o.error.None? && o.st.faculty == Title(l) && D.Get(o.st.semesters, Title(l)) == Some([]))
            && (Level(l) == 2 ==> (o.error.None? <==> D.Get(st.semesters, st.faculty).Some?))
            && (Level(l) == 2 && o.error.None? ==>
                  o.st.program == Title(l) && o.st.faculty == st.faculty
                  && D.Get2(o.st.semesters, st.faculty, Title(l)) == Some([]))
            && (Level(l) == 3 ==> o.error.None? && o.st == st.(current := [], iteration := Title(l)))
            && (Level(l) !in {1, 2, 3} ==> o.error.None? && o.st == st.(current := []))
  {
    var l := PlanLine(line);
    var title := Title(l);
    if Level(l) == 1 {
      D.GetSet(st.semesters, title, [], title);
    } else if Level(l) == 2 {
      match D.Get(st.semesters, st.faculty)
      case None =>
      case Some(programs) =>
        var programs' := D.Set(DropIfEmpty(programs, st.program), title, []);
        D.GetSet(st.semesters, st.faculty, programs', st.faculty);
        D.GetSet(DropIfEmpty(programs, st.program), title, [], title);
    }
  }

  /** A level-2 header drops the previous program of the faculty exactly when
      it has no iteration, keeps every other program, and leaves the other
      faculties alone. */
  lemma ProgramDropped(st: ParseState, line: string, f: string, q: string)
    requires IsHeader(PlanLine(line)) && Level(PlanLine(line)) == 2
    requires D.Get(st.semesters, st.faculty).Some?
    requires q != Title(PlanLine(line))
    ensures var programs := D.Get(st.semesters, st.faculty).value;
            var o := Step(st, line);
            D.Get2(o.st.semesters, f, q)
            == if f != st.faculty then D.Get2(st.semesters, f, q)
               else if q == st.program && D.Get(programs, q) == Some([]) then None
               else D.Get(programs, q)
  {
    var l := PlanLine(line);
    var programs := D.Get(st.semesters, st.faculty).value;
    var programs' := D.Set(DropIfEmpty(programs, st.program), Title(l), []);
    D.GetSet(st.semesters, st.faculty, programs', f);
    D.GetSet(DropIfEmpty(programs, st.program), Title(l), [], q);
    D.GetRemove(programs, st.program, q);
  }

  /** A slot with the empty code is skipped, unless a course with the empty
      code is registered. */
  lemma EmptySlotSkipped(reg: Registry)
    requires "" !in reg.dict
    ensures Piece(reg, "") == Parsed(reg, None, None)
  {
  }

  /** A semester line adds exactly one semester to the list; the list is
      stored once it holds eight, and before that nothing is stored. */
  lemma PlainEffect(st: ParseState, line: string)
    requires !IsHeader(PlanLine(line))
    ensures var o := Step(st, line);
            var p := Pieces(st.reg, Split(PlanLine(line), "="));
            o.st.faculty == st.faculty && o.st.program == st.program && o.st.iteration == st.iteration
            && (p.error.Some? ==> o.error == p.error && o.st == st.(reg := p.reg))
            && (o.error.None? ==> o.st.current == st.current + [p.value] && o.st.reg == p.reg)
            && (o.error.None? && |o.st.current| < 8 ==> o.st.semesters == st.semesters)
  {
    var p := Pieces(st.reg, Split(PlanLine(line), "="));
    if p.error.None? {
      StoreEffect(st.(reg := p.reg, current := st.current + [p.value]));
    }
  }

  /** Each step keeps the stored entry equal to the current list once it
      holds eight or more; so from the ninth semester on, the store cannot
      fail, as in the source where nothing is stored any more. */
  lemma StepStored(st: ParseState, line: string)
    requires Stored(st)
    ensures Step(st, line).error.None? ==> Stored(Step(st, line).st)
    ensures !IsHeader(PlanLine(line)) && |st.current| >= 8 ==>
              (Step(st, line).error.None? <==> Pieces(st.reg, Split(PlanLine(line), "=")).error.None?)
  {
    var l := PlanLine(line);
    if IsHeader(l) {
      HeaderEffect(st, line);
    } else {
      var p := Pieces(st.reg, Split(l, "="));
      if p.error.None? {
        var st2 := st.(reg := p.reg, current := st.current + [p.value]);
        StoreEffect(st2);
        if |st.current| >= 8 {
          assert D.Get2(st.semesters, st.faculty, st.program).Some?;
        }
      }
    }
  }

  /** A run keeps the stored entry equal to the current list. */
  lemma {:induction false} RunStored(st: ParseState, lines: seq<string>)
    requires Stored(st)
    ensures Run(st, lines).error.None? ==> Stored(Run(st, lines).st)
  {
    if lines != [] {
      RunStored(st, lines[..|lines| - 1]);
      var prev := Run(st, lines[..|lines| - 1]);
      if prev.error.None? {
        StepStored(prev.st, lines[|lines| - 1]);
      }
    }
  }

  /** The current program exists. */
  predicate ProgramOpen(st: ParseState) {
    D.Get2(st.semesters, st.faculty, st.program).Some?
  }

  /** Once a level-2 header has opened a program, only another level-1 or
      level-2 header can close it: the last program of a faculty is never
      dropped. */
  lemma StepKeepsOpen(st: ParseState, line: string)
    requires ProgramOpen(st)
    requires !(IsHeader(PlanLine(line)) && Level(PlanLine(line)) in {1, 2})
    ensures Step(st, line).error.None? ==> ProgramOpen(Step(st, line).st)
  {
    var l := PlanLine(line);
    if IsHeader(l) {
      HeaderEffect(st, line);
    } else {
      PlainEffect(st, line);
      var p := Pieces(st.reg, Split(l, "="));
      if p.error.None? {
        var st2 := st.(reg := p.reg, current := st.current + [p.value]);
        StoreEffect(st2);
        if |st2.current| >= 8 && Store(st2).error.None? {
          var its := D.Get2(st.semesters, st.faculty, st.program).value;
          assert Get3(Store(st2).st.semesters, st.faculty, st.program, st.iteration) == Some(st2.current);
        }
      }
    }
  }

  // ---------------------------------------------------------------- the `semesters` getter

  /** The `semesters` getter: when `#semesters` is empty, the `courses`
      getter, then `#createSemesters` over the catalogue it leaves. */
  function SemestersLoaded(reg: Registry, semesters: Faculties, courseLines: seq<string>,
                           lessonLines: seq<string>, planLines: seq<string>): (r: (Registry, Faculties, Option<string>))
    requires Valid(reg)
    ensures Valid(r.0)
  {
    if |semesters| > 0 then (reg, semesters, None)
    else
      var loaded := CoursesLoaded(reg, courseLines, lessonLines);
      if loaded.1.Some? then (loaded.0, semesters, loaded.1)
      else
        var o := CreatedSemesters(loaded.0, planLines);
        (o.st.reg, o.st.semesters, o.error)
  }

  // ---------------------------------------------------------------- loop steps

  lemma OptionsStep(reg: Registry, names: seq<string>, j: nat)
    requires j < |names|
    ensures Options(reg, names[..j + 1])
            == var prev := Options(reg, names[..j]);
               var lk := Find(prev.0, names[j]);
               (lk.reg, prev.1 + [lk.course])
  {
    assert names[..j + 1][..j] == names[..j];
  }

  lemma PiecesStep(reg: Registry, pieces: seq<string>, j: nat)
    requires j < |pieces|
    ensures Pieces(reg, pieces[..j + 1])
            == var prev := Pieces(reg, pieces[..j]);
               if prev.error.Some? then prev
               else
                 var p := Piece(prev.reg, pieces[j]);
                 Parsed(p.reg, prev.value + (match p.value case Some(e) => [e] case None => []), p.error)
  {
    assert pieces[..j + 1][..j] == pieces[..j];
  }

  /** Once a slot raises, the later slots of the line change nothing. */
  lemma {:induction false} PiecesStop(reg: Registry, pieces: seq<string>, j: nat)
    requires j <= |pieces| && Pieces(reg, pieces[..j]).error.Some?
    ensures Pieces(reg, pieces) == Pieces(reg, pieces[..j])
    decreases |pieces| - j
  {
    if j < |pieces| {
      PiecesStep(reg, pieces, j);
      PiecesStop(reg, pieces, j + 1);
    } else {
      assert pieces[..j] == pieces;
    }
  }

  lemma RunStep(st: ParseState, lines: seq<string>, i: nat)
    requires i < |lines|
    ensures Run(st, lines[..i + 1])
            == var prev := Run(st, lines[..i]);
               if prev.error.Some? then prev else Step(prev.st, lines[i])
  {
    assert lines[..i + 1][..i] == lines[..i];
  }

  /** Once a line raises, the later lines change nothing. */
  lemma {:induction false} RunStops(st: ParseState, lines: seq<string>, i: nat)
    requires i <= |lines| && Run(st, lines[..i]).error.Some?
    ensures Run(st, lines) == Run(st, lines[..i])
    decreases |lines| - i
  {
    if i < |lines| {
      RunStep(st, lines, i);
      RunStops(st, lines, i + 1);
    } else {
      assert lines[..i] == lines;
    }
  }
}
