/** The course catalogue of the browser-side `ITUHelper`, as values: the
    `Course` records, the code-to-course dictionary `coursesDict`, the
    get-or-create lookup `findCourseByCode`, and what `#createCourses`,
    `#createLessons` and `connectCourses` make of their input. Courses are
    shared objects in the source; here they are positions in the catalogue,
    so a change to a course is seen by everyone holding its position. A
    JavaScript `undefined` read as text is written as the string
    "undefined". */
module ItuCourses {
  import opened Wrappers
  import opened Text
  import opened CourseRequirements

  /** A `Lesson`: the eight values its constructor is given. */
  datatype Lesson = Lesson(args: seq<string>)

  /** A `Course` object. `requirements` is absent until `connectCourses`, or
      the lookup that generates the course, sets it; `majorRest` is
      "undefined" until a lesson sets it. */
  datatype Course = Course(
    courseCode: string,
    courseTitle: string,
    classRestrictions: string,
    majorRestrictions: string,
    lessons: seq<Lesson>,
    requirementNames: seq<seq<string>>,
    requirements: Option<seq<seq<nat>>>,
    majorRest: string)

  /** `new Course(code, title, requirementsText, classRestrictions)`. */
  function NewCourse(code: string, title: string, requirementsText: string, classRestrictions: string): Course {
    Course(code, title, classRestrictions, "", [], RequirementNames(requirementsText), None, "undefined")
  }

  const AUTO_TITLE := "Auto Generated Course"

  /** The course `findCourseByCode` makes for a code it does not know. */
  function AutoCourse(code: string): Course {
    NewCourse(code, AUTO_TITLE, "", "").(requirements := Some([]))
  }

  /** `#courses` and `coursesDict`; the dictionary maps a code to the
      position of its course. */
  datatype Registry = Registry(courses: seq<Course>, dict: map<string, nat>)

  /** Every dictionary entry names a course with that code. */
  predicate Valid(reg: Registry) {
    forall c :: c in reg.dict ==> reg.dict[c] < |reg.courses| && reg.courses[reg.dict[c]].courseCode == c
  }

  /** `after` is `before` followed by courses the lookup generated, which
      have no requirements. */
  predicate Generated(before: seq<Course>, after: seq<Course>) {
    before <= after && forall j :: |before| <= j < |after| ==> after[j].requirements == Some([])
  }

  /** What a lookup leaves: the catalogue, and the course found (absent for `null`). */
  datatype Lookup = Lookup(reg: Registry, course: Option<nat>)

  // ---------------------------------------------------------------- findCourseByCode

  /** `findCourseByCode(code)`: the registered course; `null` for an
      unregistered empty code; otherwise a new "Auto Generated Course" with
      no requirements, appended and registered. */
  function Find(reg: Registry, code: string): (r: Lookup)
    ensures Valid(reg) ==> Valid(r.reg)
    ensures Valid(reg) && r.course.Some? ==>
              r.course.value < |r.reg.courses| && r.reg.courses[r.course.value].courseCode == code
    ensures r.course.None? <==> code == "" && "" !in reg.dict
    ensures reg.courses <= r.reg.courses && |r.reg.courses| <= |reg.courses| + 1
    ensures Generated(reg.courses, r.reg.courses)
    ensures r.reg.dict.Keys == reg.dict.Keys + (if r.course.Some? then {code} else {})
  {
    if code in reg.dict then Lookup(reg, Some(reg.dict[code]))
    else if code == "" then Lookup(reg, None)
    else Lookup(Registry(reg.courses + [AutoCourse(code)], reg.dict[code := |reg.courses|]), Some(|reg.courses|))
  }

  /** A second lookup of the same code finds the same course and creates
      nothing: a code is generated at most once. */
  lemma FindTwice(reg: Registry, code: string)
    ensures Find(Find(reg, code).reg, code) == Find(reg, code)
  {
    if code !in reg.dict && code != "" {
      var r := Find(reg, code).reg;
      assert r.dict[code] == |reg.courses|;
    }
  }

  /** A known code is answered without touching the catalogue; an unknown,
      non-empty one grows it by exactly its own course. */
  lemma FindGrows(reg: Registry, code: string)
    ensures code in reg.dict ==> Find(reg, code).reg == reg
    ensures code !in reg.dict && code != "" ==>
              Find(reg, code).reg.courses == reg.courses + [AutoCourse(code)]
  {
  }

  // ---------------------------------------------------------------- #createCourses

  /** `lines[i].replace("\r", "")`: the first carriage return goes. */
  function CleanLine(line: string): string {
    ReplaceFirst(line, "\r", "")
  }

  /** A line `#createCourses` reads: non-empty and not a `#` comment. */
  predicate IsCourseLine(line: string) {
    line != [] && line[0] != '#'
  }

  /** The course of one line, or none when its requirements field is missing
      (`requirementsText.includes` on `undefined` raises). */
  function CourseOf(line: string): Option<Course> {
    var data := Split(line, "|");
    if |data| < 3 then None else Some(NewCourse(data[0], data[1], data[2], WordAt(data, 3)))
  }

  /** The lines `#createCourses` reads, cleaned, in order. */
  function CourseLines(lines: seq<string>): (r: seq<string>)
    ensures |r| <= |lines|
    ensures forall k :: 0 <= k < |r| ==> IsCourseLine(r[k])
  {
    if lines == [] then []
    else
      var line := CleanLine(lines[|lines| - 1]);
      CourseLines(lines[..|lines| - 1]) + (if IsCourseLine(line) then [line] else [])
  }

  /** `#createCourses`: the courses pushed before the loop ends or raises,
      and the error raised, if any. */
  function CreatedCourses(lines: seq<string>): (seq<Course>, Option<string>) {
    if lines == [] then ([], None)
    else
      var prev := CreatedCourses(lines[..|lines| - 1]);
      var line := CleanLine(lines[|lines| - 1]);
      if prev.1.Some? || !IsCourseLine(line) then prev
      else match CourseOf(line)
        case None => (prev.0, Some("TypeError"))
        case Some(c) => (prev.0 + [c], None)
  }

  /** Every cleaned course line has a course. */
  predicate AllParse(ls: seq<string>) {
    forall k :: 0 <= k < |ls| ==> CourseOf(ls[k]).Some?
  }

  lemma AllParseSnoc(ls: seq<string>, line: string)
    ensures AllParse(ls + [line]) <==> AllParse(ls) && CourseOf(line).Some?
  {
    if AllParse(ls + [line]) {
      assert (ls + [line])[|ls|] == line;
      forall k | 0 <= k < |ls|
        ensures CourseOf(ls[k]).Some?
      {
        assert (ls + [line])[k] == ls[k];
      }
    }
  }

  /** One course per non-empty, non-comment line, in order; a `TypeError`
      exactly when one of them has fewer than three fields. */
  lemma {:induction false} CreatedCoursesLines(lines: seq<string>)
    ensures CreatedCourses(lines).1.None? <==> AllParse(CourseLines(lines))
    ensures CreatedCourses(lines).1.Some? ==> CreatedCourses(lines).1.value == "TypeError"
    ensures CreatedCourses(lines).1.None? ==>
              |CreatedCourses(lines).0| == |CourseLines(lines)|
              && forall k :: 0 <= k < |CourseLines(lines)| ==> CourseOf(CourseLines(lines)[k]) == Some(CreatedCourses(lines).0[k])
  {
    if lines != [] {
      var init := lines[..|lines| - 1];
      CreatedCoursesLines(init);
      var ls := CourseLines(init);
      var line := CleanLine(lines[|lines| - 1]);
      if IsCourseLine(line) {
        assert CourseLines(lines) == ls + [line];
        AllParseSnoc(ls, line);
      } else {
        assert CourseLines(lines) == ls;
      }
    }
  }

  /** `coursesDict[course.courseCode] = course` for each course in turn. */
  function Register(courses: seq<Course>): map<string, nat> {
    if courses == [] then map[]
    else Register(courses[..|courses| - 1])[courses[|courses| - 1].courseCode := |courses| - 1]
  }

  /** The dictionary built over a catalogue knows exactly its codes, and each
      code names the last course that carries it. */
  lemma {:induction false} RegisterValid(courses: seq<Course>)
    ensures Valid(Registry(courses, Register(courses)))
    ensures forall c :: c in Register(courses) <==> exists k :: 0 <= k < |courses| && courses[k].courseCode == c
    ensures forall c, k :: c in Register(courses) && Register(courses)[c] < k < |courses| ==> courses[k].courseCode != c
  {
    if courses != [] {
      var init := courses[..|courses| - 1];
      RegisterValid(init);
      forall c | c in Register(init)
        ensures courses[Register(init)[c]].courseCode == c
      {
        assert courses[Register(init)[c]] == init[Register(init)[c]];
      }
      forall c | exists k :: 0 <= k < |courses| && courses[k].courseCode == c
        ensures c in Register(courses)
      {
        var k :| 0 <= k < |courses| && courses[k].courseCode == c;
        if k < |init| {
          assert init[k].courseCode == c;
        }
      }
    }
  }

  // ---------------------------------------------------------------- #createLessons

  /** A `Lesson` from the fields of its line: positions 0 and 2 to 8. */
  function LessonOf(data: seq<string>): Lesson {
    Lesson([WordAt(data, 0), WordAt(data, 2), WordAt(data, 3), WordAt(data, 4),
            WordAt(data, 5), WordAt(data, 6), WordAt(data, 7), WordAt(data, 8)])
  }

  /** The course code of a lesson line, its second field. */
  function LessonCode(line: string): string {
    WordAt(Split(CleanLine(line), "|"), 1)
  }

  /** One pass of the `#createLessons` loop: the line's course is looked up
      (and generated if unknown); when one is found the lesson is pushed
      onto it and its `majorRest` set from the tenth field. */
  function AddLesson(reg: Registry, line: string): (r: Registry)
    requires Valid(reg)
    ensures Valid(r)
  {
    var data := Split(CleanLine(line), "|");
    var lk := Find(reg, WordAt(data, 1));
    match lk.course
    case None => lk.reg
    case Some(i) =>
      var c := lk.reg.courses[i];
      lk.reg.(courses := lk.reg.courses[i := c.(lessons := c.lessons + [LessonOf(data)], majorRest := WordAt(data, 9))])
  }

  /** `#createLessons` over `lines`. */
  function AddLessons(reg: Registry, lines: seq<string>): (r: Registry)
    requires Valid(reg)
    ensures Valid(r)
  {
    if lines == [] then reg else AddLesson(AddLessons(reg, lines[..|lines| - 1]), lines[|lines| - 1])
  }

  /** A lesson lands on the course with its code, which keeps its code, and
      on no other course; a course is generated only for an unknown,
      non-empty code, and a line whose code is empty and unknown changes
      nothing. */
  lemma AddLessonEffect(reg: Registry, line: string)
    requires Valid(reg)
    ensures var code := LessonCode(line);
            var r := AddLesson(reg, line);
            (code == "" && "" !in reg.dict ==> r == reg)
            && (code in reg.dict || code != "" ==>
                  code in r.dict && r.dict.Keys == reg.dict.Keys + {code}
                  && r.courses[r.dict[code]].courseCode == code
                  && r.courses[r.dict[code]].lessons
                     == Find(reg, code).reg.courses[r.dict[code]].lessons + [LessonOf(Split(CleanLine(line), "|"))]
                  && |r.courses| == |Find(reg, code).reg.courses|
                  && forall j :: 0 <= j < |r.courses| && j != r.dict[code] ==> r.courses[j] == Find(reg, code).reg.courses[j])
  {
  }

  /** Lessons never change the codes of the courses already known, and
      only add courses. */
  lemma {:induction false} AddLessonsKeep(reg: Registry, lines: seq<string>)
    requires Valid(reg)
    ensures |AddLessons(reg, lines).courses| >= |reg.courses|
    ensures forall j :: 0 <= j < |reg.courses| ==>
              AddLessons(reg, lines).courses[j].courseCode == reg.courses[j].courseCode
              && AddLessons(reg, lines).courses[j].requirementNames == reg.courses[j].requirementNames
    ensures reg.dict.Keys <= AddLessons(reg, lines).dict.Keys
  {
    if lines != [] {
      AddLessonsKeep(reg, lines[..|lines| - 1]);
    }
  }

  /** The blank last line a newline-terminated lesson file leaves after
      `split("\n")` has no second field, so its code is `undefined`: a course
      coded "undefined" is generated and given a lesson of blanks. */
  lemma BlankLessonLineGenerates(reg: Registry)
    requires Valid(reg) && "undefined" !in reg.dict
    ensures var r := AddLesson(reg, "");
            |r.courses| == |reg.courses| + 1
            && r.courses[|reg.courses|].courseCode == "undefined"
            && r.courses[|reg.courses|].lessons == [Lesson(["", "undefined", "undefined", "undefined",
                                                             "undefined", "undefined", "undefined", "undefined"])]
  {
    assert IndexOf("", "\r") == None;
    assert CleanLine("") == "";
    assert IndexOf("", "|") == None;
    assert Split("", "|") == [""];
  }

  /** The lesson step as evidently intended: blank lines are skipped, as
      `#createCourses` skips them, and `majorRest` comes from the eleventh
      field, where the lesson writer puts the major restriction. */
  function AddLessonIntended(reg: Registry, line: string): (r: Registry)
    requires Valid(reg)
    ensures Valid(r)
  {
    var data := Split(CleanLine(line), "|");
    if CleanLine(line) == "" then reg
    else
      var lk := Find(reg, WordAt(data, 1));
      match lk.course
      case None => lk.reg
      case Some(i) =>
        var c := lk.reg.courses[i];
        lk.reg.(courses := lk.reg.courses[i := c.(lessons := c.lessons + [LessonOf(data)], majorRest := WordAt(data, 10))])
  }

  function AddLessonsIntended(reg: Registry, lines: seq<string>): (r: Registry)
    requires Valid(reg)
    ensures Valid(r)
  {
    if lines == [] then reg else AddLessonIntended(AddLessonsIntended(reg, lines[..|lines| - 1]), lines[|lines| - 1])
  }

  /** Under the intended step a trailing blank line changes nothing, and a
      lesson sets its course's `majorRest` to the line's eleventh field. */
  lemma LessonsIntended(reg: Registry, lines: seq<string>, line: string)
    requires Valid(reg)
    ensures AddLessonsIntended(reg, lines + [""]) == AddLessonsIntended(reg, lines)
    ensures var data := Split(CleanLine(line), "|");
            var r := AddLessonIntended(reg, line);
            CleanLine(line) != "" && (WordAt(data, 1) in reg.dict || WordAt(data, 1) != "") ==>
              r.courses[r.dict[WordAt(data, 1)]].majorRest == WordAt(data, 10)
  {
    assert (lines + [""])[..|lines|] == lines;
    assert IndexOf("", "\r") == None;
  }

  // ---------------------------------------------------------------- connectCourses

  /** Every position in `idxs` is a course of `courses`. */
  predicate InRange(courses: seq<Course>, idxs: seq<nat>) {
    forall k :: 0 <= k < |idxs| ==> idxs[k] < |courses|
  }

  /** The codes of the courses at `idxs`. */
  function CodesOf(courses: seq<Course>, idxs: seq<nat>): (r: seq<string>)
    requires InRange(courses, idxs)
    ensures |r| == |idxs|
  {
    seq(|idxs|, k requires 0 <= k < |idxs| => courses[idxs[k]].courseCode)
  }

  /** `after` keeps the courses of `before` in place, with their codes. */
  predicate SameCodes(before: seq<Course>, after: seq<Course>) {
    |before| <= |after| && forall j :: 0 <= j < |before| ==> after[j].courseCode == before[j].courseCode
  }

  /** The names whose lookup is not `null`: all but the empty one, unless a
      course with the empty code is registered. */
  function NonNull(names: seq<string>, emptyKnown: bool): seq<string> {
    if names == [] then []
    else
      var name := names[|names| - 1];
      NonNull(names[..|names| - 1], emptyKnown) + (if name != "" || emptyKnown then [name] else [])
  }

  /** `idxs` are courses of `courses` whose codes are the non-`null` names. */
  predicate Keeps(courses: seq<Course>, idxs: seq<nat>, names: seq<string>, emptyKnown: bool) {
    InRange(courses, idxs) && CodesOf(courses, idxs) == NonNull(names, emptyKnown)
  }

  lemma KeepsLater(before: seq<Course>, after: seq<Course>, idxs: seq<nat>, names: seq<string>, emptyKnown: bool)
    requires SameCodes(before, after) && Keeps(before, idxs, names, emptyKnown)
    ensures Keeps(after, idxs, names, emptyKnown)
  {
    assert CodesOf(after, idxs) == CodesOf(before, idxs);
  }

  /** The inner loop of `connectCourses`: the courses of one name group,
      `null` lookups dropped. */
  function ConnectGroup(reg: Registry, names: seq<string>): (r: (Registry, seq<nat>))
    ensures Generated(reg.courses, r.0.courses)
    ensures reg.dict.Keys <= r.0.dict.Keys
    ensures ("" in r.0.dict) == ("" in reg.dict)
    ensures Valid(reg) ==> Valid(r.0)
  {
    if names == [] then (reg, [])
    else
      var prev := ConnectGroup(reg, names[..|names| - 1]);
      var lk := Find(prev.0, names[|names| - 1]);
      (lk.reg, prev.1 + (match lk.course case Some(i) => [i] case None => []))
  }

  /** A group keeps every name whose lookup is not `null`, in order, each as
      a course with that code. */
  lemma {:induction false} ConnectGroupCodes(reg: Registry, names: seq<string>)
    requires Valid(reg)
    ensures Keeps(ConnectGroup(reg, names).0.courses, ConnectGroup(reg, names).1, names, "" in reg.dict)
  {
    if names != [] {
      var init, name := names[..|names| - 1], names[|names| - 1];
      var emptyKnown := "" in reg.dict;
      var prev := ConnectGroup(reg, init);
      ConnectGroupCodes(reg, init);
      var lk := Find(prev.0, name);
      KeepsLater(prev.0.courses, lk.reg.courses, prev.1, init, emptyKnown);
      assert NonNull(names, emptyKnown) == NonNull(init, emptyKnown) + (if name != "" || emptyKnown then [name] else []);
      match lk.course
      case None =>
        assert prev.1 + [] == prev.1;
      case Some(i) =>
        CodesOfSnoc(lk.reg.courses, prev.1, i);
    }
  }

  lemma CodesOfSnoc(courses: seq<Course>, idxs: seq<nat>, i: nat)
    requires InRange(courses, idxs) && i < |courses|
    ensures InRange(courses, idxs + [i])
    ensures CodesOf(courses, idxs + [i]) == CodesOf(courses, idxs) + [courses[i].courseCode]
  {
  }

  /** The outer loop of `connectCourses`: one group per name group. */
  function ConnectGroups(reg: Registry, groups: seq<seq<string>>): (r: (Registry, seq<seq<nat>>))
    ensures Generated(reg.courses, r.0.courses)
    ensures reg.dict.Keys <= r.0.dict.Keys
    ensures ("" in r.0.dict) == ("" in reg.dict)
    ensures Valid(reg) ==> Valid(r.0)
    ensures |r.1| == |groups|
  {
    if groups == [] then (reg, [])
    else
      var prev := ConnectGroups(reg, groups[..|groups| - 1]);
      var g := ConnectGroup(prev.0, groups[|groups| - 1]);
      (g.0, prev.1 + [g.1])
  }

  /** Group `j` of `idxss` keeps the non-`null` names of group `j` of `groups`. */
  predicate AllKeep(courses: seq<Course>, idxss: seq<seq<nat>>, groups: seq<seq<string>>, emptyKnown: bool) {
    |idxss| == |groups| && forall j :: 0 <= j < |groups| ==> Keeps(courses, idxss[j], groups[j], emptyKnown)
  }

  lemma AllKeepSnoc(before: seq<Course>, after: seq<Course>, idxss: seq<seq<nat>>, groups: seq<seq<string>>,
                    idxs: seq<nat>, names: seq<string>, emptyKnown: bool)
    requires SameCodes(before, after) && AllKeep(before, idxss, groups, emptyKnown)
    requires Keeps(after, idxs, names, emptyKnown)
    ensures AllKeep(after, idxss + [idxs], groups + [names], emptyKnown)
  {
    forall j | 0 <= j < |groups| + 1
      ensures Keeps(after, (idxss + [idxs])[j], (groups + [names])[j], emptyKnown)
    {
      if j < |groups| {
        KeepsLater(before, after, idxss[j], groups[j], emptyKnown);
      }
    }
  }

  /** As many groups as name groups, in order, each keeping exactly the
      names whose lookup is not `null`. */
  lemma {:induction false} ConnectGroupsCodes(reg: Registry, groups: seq<seq<string>>)
    requires Valid(reg)
    ensures AllKeep(ConnectGroups(reg, groups).0.courses, ConnectGroups(reg, groups).1, groups, "" in reg.dict)
  {
    if groups != [] {
      var init := groups[..|groups| - 1];
      var prev := ConnectGroups(reg, init);
      ConnectGroupsCodes(reg, init);
      var g := ConnectGroup(prev.0, groups[|groups| - 1]);
      ConnectGroupCodes(prev.0, groups[|groups| - 1]);
      AllKeepSnoc(prev.0.courses, g.0.courses, prev.1, init, g.1, groups[|groups| - 1], "" in reg.dict);
      assert init + [groups[|groups| - 1]] == groups;
    }
  }

  /** `courses[i].connectCourses(this)`: its name groups become course groups. */
  function Connect(reg: Registry, i: nat): (r: Registry)
    requires i < |reg.courses|
    ensures |r.courses| >= |reg.courses|
    ensures Valid(reg) ==> Valid(r)
    ensures ("" in r.dict) == ("" in reg.dict)
    ensures forall j :: |reg.courses| <= j < |r.courses| ==> r.courses[j].requirements == Some([])
  {
    var g := ConnectGroups(reg, reg.courses[i].requirementNames);
    g.0.(courses := g.0.courses[i := g.0.courses[i].(requirements := Some(g.1))])
  }

  /** `connectCourses` sets the course's requirements to one group per name
      group, in order, each holding the courses whose codes are the group's
      names, `null` lookups dropped; it changes no other course already
      known. */
  lemma ConnectEffect(reg: Registry, i: nat)
    requires Valid(reg) && i < |reg.courses|
    ensures var r := Connect(reg, i);
            var names := reg.courses[i].requirementNames;
            r.courses[i].requirements.Some?
            && Connected(r.courses, i, names, "" in reg.dict)
            && (forall j :: 0 <= j < |reg.courses| && j != i ==> r.courses[j] == reg.courses[j])
            && r.courses[i].courseCode == reg.courses[i].courseCode
            && SameCodes(reg.courses, r.courses)
  {
    var names := reg.courses[i].requirementNames;
    var g := ConnectGroups(reg, names);
    ConnectGroupsCodes(reg, names);
    var r := Connect(reg, i);
    assert SameCodes(g.0.courses, r.courses);
    forall j | 0 <= j < |names|
      ensures Keeps(r.courses, g.1[j], names[j], "" in reg.dict)
    {
      KeepsLater(g.0.courses, r.courses, g.1[j], names[j], "" in reg.dict);
    }
  }

  /** `#connectAllCourses`: `connectCourses` on the first `n` courses, in
      order. */
  function ConnectAll(reg: Registry, n: nat): (r: Registry)
    requires Valid(reg) && n <= |reg.courses|
    ensures Valid(r) && |r.courses| >= |reg.courses|
    ensures ("" in r.dict) == ("" in reg.dict)
  {
    if n == 0 then reg else Connect(ConnectAll(reg, n - 1), n - 1)
  }

  /** Course `j` of `courses` has requirements that keep the non-`null`
      names of `names`. */
  predicate Connected(courses: seq<Course>, j: nat, names: seq<seq<string>>, emptyKnown: bool) {
    j < |courses| && courses[j].requirements.Some?
    && AllKeep(courses, courses[j].requirements.value, names, emptyKnown)
  }

  /** The first `n` courses of `after` are connected, each along the name
      groups it has in `before`. */
  predicate ConnectedUpTo(before: seq<Course>, after: seq<Course>, n: nat, emptyKnown: bool)
    requires n <= |before|
  {
    forall j :: 0 <= j < n ==> Connected(after, j, before[j].requirementNames, emptyKnown)
  }

  /** `#connectAllCourses` keeps every course known before it in place
      with its code, touches none past the first `n`, and the courses
      generated while it runs (past the length `forEach` started with) keep
      the empty requirements they were made with. */
  lemma {:induction false} ConnectAllShape(reg: Registry, n: nat)
    requires Valid(reg) && n <= |reg.courses|
    ensures SameCodes(reg.courses, ConnectAll(reg, n).courses)
    ensures forall j :: n <= j < |reg.courses| ==> ConnectAll(reg, n).courses[j] == reg.courses[j]
    ensures forall j :: |reg.courses| <= j < |ConnectAll(reg, n).courses| ==> ConnectAll(reg, n).courses[j].requirements == Some([])
  {
    if n > 0 {
      var prev := ConnectAll(reg, n - 1);
      var r := ConnectAll(reg, n);
      ConnectAllShape(reg, n - 1);
      ConnectEffect(prev, n - 1);
      assert r == Connect(prev, n - 1);
      forall j | n <= j < |reg.courses| ensures r.courses[j] == reg.courses[j] {
        assert r.courses[j] == prev.courses[j];
      }
      forall j | |reg.courses| <= j < |r.courses| ensures r.courses[j].requirements == Some([]) {
        if j < |prev.courses| {
          assert r.courses[j] == prev.courses[j];
        }
      }
    }
  }

  /** `#connectAllCourses` connects course `j`, one of the first `n`, as
      `connectCourses` promises. */
  lemma {:induction false} ConnectAllAt(reg: Registry, n: nat, j: nat)
    requires Valid(reg) && j < n <= |reg.courses|
    ensures Connected(ConnectAll(reg, n).courses, j, reg.courses[j].requirementNames, "" in reg.dict)
  {
    var prev := ConnectAll(reg, n - 1);
    if j < n - 1 {
      ConnectAllAt(reg, n - 1, j);
      ConnectKeepsConnected(prev, n - 1, j, reg.courses[j].requirementNames, "" in reg.dict);
    } else {
      ConnectAllShape(reg, n - 1);
      ConnectEffect(prev, n - 1);
    }
  }

  /** Connecting one course leaves another connected. */
  lemma ConnectKeepsConnected(reg: Registry, i: nat, j: nat, names: seq<seq<string>>, emptyKnown: bool)
    requires Valid(reg) && i < |reg.courses| && j != i && Connected(reg.courses, j, names, emptyKnown)
    ensures Connected(Connect(reg, i).courses, j, names, emptyKnown)
  {
    ConnectEffect(reg, i);
    AllKeepLater(reg.courses, Connect(reg, i).courses, reg.courses[j].requirements.value, names, emptyKnown);
  }

  /** `#connectAllCourses` connects each of the first `n` courses as
      `connectCourses` promises. */
  lemma ConnectAllEffect(reg: Registry, n: nat)
    requires Valid(reg) && n <= |reg.courses|
    ensures ConnectedUpTo(reg.courses, ConnectAll(reg, n).courses, n, "" in reg.dict)
  {
    forall j | 0 <= j < n
      ensures Connected(ConnectAll(reg, n).courses, j, reg.courses[j].requirementNames, "" in reg.dict)
    {
      ConnectAllAt(reg, n, j);
    }
  }

  lemma AllKeepLater(before: seq<Course>, after: seq<Course>, idxss: seq<seq<nat>>, groups: seq<seq<string>>, emptyKnown: bool)
    requires SameCodes(before, after) && AllKeep(before, idxss, groups, emptyKnown)
    ensures AllKeep(after, idxss, groups, emptyKnown)
  {
    forall j | 0 <= j < |groups|
      ensures Keeps(after, idxss[j], groups[j], emptyKnown)
    {
      KeepsLater(before, after, idxss[j], groups[j], emptyKnown);
    }
  }

  /** Every generated course has the name groups of a blank requirement
      text: one group holding " undefined". */
  lemma AutoCourseNames(code: string)
    ensures AutoCourse(code).requirementNames == [[" undefined"]]
  {
    BlankTextNamesUndefined();
  }

  /** A course whose requirement names are those of a blank text, as every
      generated course's are, is connected to a course coded " undefined",
      which is generated when it does not exist yet. */
  lemma BlankRequirementsConnectUndefined(reg: Registry, i: nat)
    requires Valid(reg) && i < |reg.courses|
    requires reg.courses[i].requirementNames == [[" undefined"]]
    ensures var r := Connect(reg, i);
            r.courses[i].requirements.Some? && |r.courses[i].requirements.value| == 1
            && |r.courses[i].requirements.value[0]| == 1
            && r.courses[i].requirements.value[0][0] < |r.courses|
            && r.courses[r.courses[i].requirements.value[0][0]].courseCode == " undefined"
            && (" undefined" !in reg.dict ==> |r.courses| == |reg.courses| + 1)
  {
    ConnectEffect(reg, i);
    var r := Connect(reg, i);
    var idxs := r.courses[i].requirements.value[0];
    assert [" undefined"][..0] == [];
    assert NonNull([" undefined"], "" in reg.dict) == [" undefined"];
    assert CodesOf(r.courses, idxs) == [" undefined"];
    assert r.courses[idxs[0]].courseCode == CodesOf(r.courses, idxs)[0];
    if " undefined" !in reg.dict {
      assert [[" undefined"]][..0] == [];
      assert ConnectGroup(reg, []) == (reg, []);
      FindGrows(reg, " undefined");
      assert |ConnectGroup(reg, [" undefined"]).0.courses| == |reg.courses| + 1;
      assert ConnectGroups(reg, []) == (reg, []);
    }
  }

  // ---------------------------------------------------------------- the `courses` getter

  /** The `courses` getter: when the catalogue is empty, `#createCourses`
      (stopping at its error), then the dictionary over the new courses,
      `#createLessons`, and `#connectAllCourses` over the courses present by
      then. */
  function CoursesLoaded(reg: Registry, courseLines: seq<string>, lessonLines: seq<string>): (r: (Registry, Option<string>))
    requires Valid(reg)
    ensures Valid(r.0)
  {
    if |reg.courses| > 0 then (reg, None)
    else
      var created := CreatedCourses(courseLines);
      if created.1.Some? then (Registry(created.0, map[]), created.1)
      else
        RegisterValid(created.0);
        var withLessons := AddLessons(Registry(created.0, Register(created.0)), lessonLines);
        (ConnectAll(withLessons, |withLessons.courses|), None)
  }

  /** The first courses carry, in order, the codes in the first fields of `lines`. */
  predicate CodesOfLines(lines: seq<string>, courses: seq<Course>) {
    |lines| <= |courses| && forall k :: 0 <= k < |lines| ==> courses[k].courseCode == Split(lines[k], "|")[0]
  }

  /** Every course has its requirements connected. */
  predicate AllConnected(courses: seq<Course>) {
    forall j :: 0 <= j < |courses| ==> courses[j].requirements.Some?
  }

  /** A loaded catalogue is returned as it is; a first load fails exactly
      when a course line has fewer than three fields. */
  lemma CoursesLoadedError(reg: Registry, courseLines: seq<string>, lessonLines: seq<string>)
    requires Valid(reg)
    ensures |reg.courses| > 0 ==> CoursesLoaded(reg, courseLines, lessonLines) == (reg, None)
    ensures |reg.courses| == 0 ==>
              (CoursesLoaded(reg, courseLines, lessonLines).1.None? <==> AllParse(CourseLines(courseLines)))
  {
    CreatedCoursesLines(courseLines);
  }

  /** A first load that succeeds gives one course per course line, in
      order, and leaves every course connected. */
  lemma CoursesLoadedEffect(reg: Registry, courseLines: seq<string>, lessonLines: seq<string>)
    requires Valid(reg) && |reg.courses| == 0 && AllParse(CourseLines(courseLines))
    ensures CodesOfLines(CourseLines(courseLines), CoursesLoaded(reg, courseLines, lessonLines).0.courses)
    ensures AllConnected(CoursesLoaded(reg, courseLines, lessonLines).0.courses)
  {
    CreatedCoursesLines(courseLines);
    var created := CreatedCourses(courseLines);
    RegisterValid(created.0);
    var reg0 := Registry(created.0, Register(created.0));
    var withLessons := AddLessons(reg0, lessonLines);
    AddLessonsKeep(reg0, lessonLines);
    var n := |withLessons.courses|;
    ConnectAllShape(withLessons, n);
    ConnectAllEffect(withLessons, n);
    var r := ConnectAll(withLessons, n);
    assert r == CoursesLoaded(reg, courseLines, lessonLines).0;
    var lines := CourseLines(courseLines);
    forall k | 0 <= k < |lines|
      ensures r.courses[k].courseCode == Split(lines[k], "|")[0]
    {
      assert CourseOf(lines[k]) == Some(created.0[k]);
      assert withLessons.courses[k].courseCode == created.0[k].courseCode;
    }
    forall j | 0 <= j < |r.courses|
      ensures r.courses[j].requirements.Some?
    {
      if j < n {
        assert Connected(r.courses, j, withLessons.courses[j].requirementNames, "" in withLessons.dict);
      }
    }
  }

  // ---------------------------------------------------------------- loop steps

  lemma CreatedCoursesStep(lines: seq<string>, i: nat)
    requires i < |lines|
    ensures CreatedCourses(lines[..i + 1])
            == var prev := CreatedCourses(lines[..i]);
               var line := CleanLine(lines[i]);
               if prev.1.Some? || !IsCourseLine(line) then prev
               else match CourseOf(line)
                 case None => (prev.0, Some("TypeError"))
                 case Some(c) => (prev.0 + [c], None)
  {
    assert lines[..i + 1][..i] == lines[..i];
  }

  /** Once `#createCourses` has raised, later lines change nothing. */
  lemma {:induction false} CreatedCoursesStops(lines: seq<string>, i: nat)
    requires i <= |lines| && CreatedCourses(lines[..i]).1.Some?
    ensures CreatedCourses(lines) == CreatedCourses(lines[..i])
    decreases |lines| - i
  {
    if i < |lines| {
      CreatedCoursesStep(lines, i);
      CreatedCoursesStops(lines, i + 1);
    } else {
      assert lines[..i] == lines;
    }
  }

  lemma RegisterStep(courses: seq<Course>, i: nat)
    requires i < |courses|
    ensures Register(courses[..i + 1]) == Register(courses[..i])[courses[i].courseCode := i]
  {
    assert courses[..i + 1][..i] == courses[..i];
  }

  lemma AddLessonsStep(reg: Registry, lines: seq<string>, i: nat)
    requires Valid(reg) && i < |lines|
    ensures AddLessons(reg, lines[..i + 1]) == AddLesson(AddLessons(reg, lines[..i]), lines[i])
  {
    assert lines[..i + 1][..i] == lines[..i];
  }

  /** One pass of the inner `connectCourses` loop, from the catalogue and
      group it found so far and the lookup it makes. */
  lemma ConnectGroupNext(reg: Registry, names: seq<string>, j: nat, prev: Registry, group: seq<nat>, lk: Lookup)
    requires j < |names| && ConnectGroup(reg, names[..j]) == (prev, group) && lk == Find(prev, names[j])
    ensures ConnectGroup(reg, names[..j + 1])
            == (lk.reg, if lk.course.Some? then group + [lk.course.value] else group)
  {
    assert names[..j + 1][..j] == names[..j];
    if lk.course.None? {
      assert group + [] == group;
    }
  }

  lemma ConnectGroupsStep(reg: Registry, groups: seq<seq<string>>, k: nat)
    requires k < |groups|
    ensures ConnectGroups(reg, groups[..k + 1])
            == var prev := ConnectGroups(reg, groups[..k]);
               var g := ConnectGroup(prev.0, groups[k]);
               (g.0, prev.1 + [g.1])
  {
    assert groups[..k + 1][..k] == groups[..k];
  }
}
