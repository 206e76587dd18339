/** The browser-side `ITUHelper` of assets/js/itu_helper.js: it holds the
    three fetched files as lines, the course catalogue with its code
    dictionary, and the nested faculty/program/iteration plans, and fills
    them on first access. Every method is proved against the functions of
    `ItuCourses` and `ItuSemesters` that describe its effect. */
module ItuHelper {
  import opened Wrappers
  import opened Text
  import D = OrderedDict
  import CR = CourseRequirements
  import opened ItuCourses
  import opened ItuSemesters

  class ITUHelper {
    var courses: seq<Course>
    var coursesDict: map<string, nat>
    var semesters: Faculties
    var lessonLines: seq<string>
    var courseLines: seq<string>
    var coursePlanLines: seq<string>

    /** The catalogue as the functions see it. */
    function Reg(): Registry
      reads this
    {
      Registry(courses, coursesDict)
    }

    /** The fetched lines, which no method but `Fetched` changes. */
    function Lines(): (seq<string>, seq<string>, seq<string>)
      reads this
    {
      (lessonLines, courseLines, coursePlanLines)
    }

    /** An empty helper; the line fields stay empty until the files arrive. */
    constructor()
      ensures Reg() == Registry([], map[]) && semesters == []
      ensures Lines() == ([], [], [])
    {
      courses := [];
      coursesDict := map[];
      semesters := [];
      lessonLines := [];
      courseLines := [];
      coursePlanLines := [];
    }

    /** The three `fetchData` callbacks, each `txt.split("\n")`. */
    method Fetched(lessonText: string, courseText: string, coursePlanText: string)
      modifies this
      ensures Lines() == (Split(lessonText, "\n"), Split(courseText, "\n"), Split(coursePlanText, "\n"))
      ensures Reg() == old(Reg()) && semesters == old(semesters)
    {
      lessonLines := Split(lessonText, "\n");
      courseLines := Split(courseText, "\n");
      coursePlanLines := Split(coursePlanText, "\n");
    }

    /** `findCourseByCode`. */
    method FindCourseByCode(courseCode: string) returns (course: Option<nat>)
      modifies this
      ensures Lookup(Reg(), course) == Find(old(Reg()), courseCode)
      ensures semesters == old(semesters) && Lines() == old(Lines())
    {
      if courseCode in coursesDict {
        return Some(coursesDict[courseCode]);
      }
      if courseCode == "" {
        return None;
      }
      courses := courses + [AutoCourse(courseCode)];
      coursesDict := coursesDict[courseCode := |courses| - 1];
      course := Some(|courses| - 1);
    }

    /** `#createCourses`: a course per course line, until a line without a
        requirements field raises. */
    method CreateCourses() returns (error: Option<string>)
      modifies this
      ensures (courses, error) == CreatedCourses(old(courseLines))
      ensures coursesDict == map[] && semesters == old(semesters) && Lines() == old(Lines())
    {
      var lines := courseLines;
      courses := [];
      coursesDict := map[];
      var i := 0;
      while i < |lines|
        invariant i <= |lines| && CreatedCourses(lines[..i]) == (courses, None)
        invariant coursesDict == map[] && semesters == old(semesters) && Lines() == old(Lines())
      {
        CreatedCoursesStep(lines, i);
        var line := ReplaceFirst(lines[i], "\r", "");
        if line != [] && line[0] != '#' {
          var data := Split(line, "|");
          if |data| < 3 {
            error := Some("TypeError");
            CreatedCoursesStops(lines, i + 1);
            return;
          }
          var names := CR.CreateRequirementNames(data[2]);
          courses := courses + [Course(data[0], data[1], CR.WordAt(data, 3), "", [], names, None, "undefined")];
        }
        i := i + 1;
      }
      assert lines[..i] == lines;
      error := None;
    }

    /** `coursesDict[course.courseCode] = course` for every course. */
    method RegisterCourses()
      requires coursesDict == map[]
      modifies this
      ensures coursesDict == Register(courses)
      ensures courses == old(courses) && semesters == old(semesters) && Lines() == old(Lines())
    {
      var i := 0;
      while i < |courses|
        invariant i <= |courses| && coursesDict == Register(courses[..i])
        invariant courses == old(courses) && semesters == old(semesters) && Lines() == old(Lines())
      {
        RegisterStep(courses, i);
        coursesDict := coursesDict[courses[i].courseCode := i];
        i := i + 1;
      }
      assert courses[..i] == courses;
    }

    /** `#createLessons`. */
    method CreateLessons()
      requires Valid(Reg())
      modifies this
      ensures Reg() == AddLessons(old(Reg()), old(lessonLines))
      ensures semesters == old(semesters) && Lines() == old(Lines())
    {
      var lines := lessonLines;
      var i := 0;
      while i < |lines|
        invariant i <= |lines| && Reg() == AddLessons(old(Reg()), lines[..i])
        invariant semesters == old(semesters) && Lines() == old(Lines())
      {
        AddLessonsStep(old(Reg()), lines, i);
        var line := ReplaceFirst(lines[i], "\r", "");
        var data := Split(line, "|");
        var courseCode := CR.WordAt(data, 1);
        var majorRest := CR.WordAt(data, 9);
        var currentLesson := LessonOf(data);
        var course := FindCourseByCode(courseCode);
        if course.Some? {
          var c := courses[course.value];
          courses := courses[course.value := c.(lessons := c.lessons + [currentLesson], majorRest := majorRest)];
        }
        i := i + 1;
      }
      assert lines[..i] == lines;
    }

    /** The inner loop of `connectCourses`: one group of requirements. */
    method ConnectGroupMethod(names: seq<string>) returns (group: seq<nat>)
      modifies this
      ensures (Reg(), group) == ConnectGroup(old(Reg()), names)
      ensures semesters == old(semesters) && Lines() == old(Lines())
    {
      group := [];
      var j := 0;
      while j < |names|
        invariant j <= |names| && (Reg(), group) == ConnectGroup(old(Reg()), names[..j])
        invariant semesters == old(semesters) && Lines() == old(Lines())
      {
        ghost var before := Reg();
        var course := FindCourseByCode(names[j]);
        ConnectGroupNext(old(Reg()), names, j, before, group, Lookup(Reg(), course));
        if course.Some? {
          group := group + [course.value];
        }
        j := j + 1;
      }
      assert names[..j] == names;
    }

    /** `courses[i].connectCourses(this)`. */
    method ConnectCourses(i: nat)
      requires i < |courses|
      modifies this
      ensures Reg() == Connect(old(Reg()), i)
      ensures semesters == old(semesters) && Lines() == old(Lines())
    {
      var names := courses[i].requirementNames;
      var requirements: seq<seq<nat>> := [];
      var k := 0;
      while k < |names|
        invariant k <= |names| && (Reg(), requirements) == ConnectGroups(old(Reg()), names[..k])
        invariant semesters == old(semesters) && Lines() == old(Lines())
      {
        ConnectGroupsStep(old(Reg()), names, k);
        var group := ConnectGroupMethod(names[k]);
        requirements := requirements + [group];
        k := k + 1;
      }
      assert names[..k] == names;
      courses := courses[i := courses[i].(requirements := Some(requirements))];
    }

    /** `#connectAllCourses`: `forEach` visits the courses present when it
        starts, not those the lookups append. */
    method ConnectAllCourses()
      requires Valid(Reg())
      modifies this
      ensures Reg() == ConnectAll(old(Reg()), |old(courses)|)
      ensures semesters == old(semesters) && Lines() == old(Lines())
    {
      var n := |courses|;
      var i := 0;
      while i < n
        invariant i <= n <= |courses| && Reg() == ConnectAll(old(Reg()), i)
        invariant semesters == old(semesters) && Lines() == old(Lines())
      {
        ConnectCourses(i);
        i := i + 1;
      }
    }

    /** The `courses` getter. */
    method Courses() returns (r: seq<Course>, error: Option<string>)
      requires Valid(Reg())
      modifies this
      ensures (Reg(), error) == CoursesLoaded(old(Reg()), old(courseLines), old(lessonLines))
      ensures r == courses
      ensures semesters == old(semesters) && Lines() == old(Lines())
    {
      if |courses| == 0 {
        error := CreateCourses();
        if error.Some? {
          return courses, error;
        }
        RegisterCourses();
        RegisterValid(courses);
        CreateLessons();
        ConnectAllCourses();
      }
      r, error := courses, None;
    }

    /** The `selectiveCourseNames.forEach` of a group slot: every option is
        looked up, `null` kept. */
    method LookUpOptions(names: seq<string>) returns (options: seq<Option<nat>>)
      modifies this
      ensures (Reg(), options) == Options(old(Reg()), names)
      ensures semesters == old(semesters) && Lines() == old(Lines())
    {
      options := [];
      var j := 0;
      while j < |names|
        invariant j <= |names| && (Reg(), options) == Options(old(Reg()), names[..j])
        invariant semesters == old(semesters) && Lines() == old(Lines())
      {
        OptionsStep(old(Reg()), names, j);
        var course := FindCourseByCode(names[j]);
        options := options + [course];
        j := j + 1;
      }
      assert names[..j] == names;
    }

    /** One `=`-separated slot of a semester line. */
    method ParsePiece(piece: string) returns (entry: Option<Entry>, error: Option<string>)
      modifies this
      ensures Parsed(Reg(), entry, error) == Piece(old(Reg()), piece)
      ensures semesters == old(semesters) && Lines() == old(Lines())
    {
      if piece != [] && piece[0] == '[' {
        var course := ReplaceFirst(ReplaceFirst(piece, "[", ""), "]", "");
        var courseGroupData := Split(course, "*");
        if |courseGroupData| < 2 {
          return None, Some("TypeError");
        }
        var optionText := ReplaceFirst(ReplaceFirst(courseGroupData[1], "(", ""), ")", "");
        var selectiveCourses := LookUpOptions(Split(optionText, "|"));
        entry, error := Some(Group(selectiveCourses, courseGroupData[0])), None;
      } else {
        var courseObject := FindCourseByCode(piece);
        entry, error := if courseObject.Some? then Some(CourseRef(courseObject.value)) else None, None;
      }
    }

    /** The slots of one semester line, up to the first that raises. */
    method ParseSemester(line: string) returns (semester: Semester, error: Option<string>)
      modifies this
      ensures Parsed(Reg(), semester, error) == Pieces(old(Reg()), Split(line, "="))
      ensures semesters == old(semesters) && Lines() == old(Lines())
    {
      var pieces := Split(line, "=");
      semester := [];
      var j := 0;
      while j < |pieces|
        invariant j <= |pieces| && Pieces(old(Reg()), pieces[..j]) == Parsed(Reg(), semester, None)
        invariant semesters == old(semesters) && Lines() == old(Lines())
      {
        PiecesStep(old(Reg()), pieces, j);
        ghost var before := Reg();
        var entry, err := ParsePiece(pieces[j]);
        assert Piece(before, pieces[j]) == Parsed(Reg(), entry, err);
        if entry.Some? {
          semester := semester + [entry.value];
        } else {
          assert semester + [] == semester;
        }
        if err.Some? {
          PiecesStop(old(Reg()), pieces, j + 1);
          return semester, err;
        }
        j := j + 1;
      }
      assert pieces[..j] == pieces;
      error := None;
    }
  
    /** A header line of `#createSemesters`, whose `currentSemesters` the
        caller has just emptied. */
    method ReadHeader(line: string, faculty: string, program: string, iteration: string, ghost current: seq<Semester>)
      returns (faculty': string, program': string, iteration': string, error: Option<string>)
      modifies this
      ensures Header(ParseState(old(Reg()), old(semesters), faculty, program, iteration, current), line)
              == Outcome(ParseState(Reg(), semesters, faculty', program', iteration', []), error)
      ensures Lines() == old(Lines())
    {
      faculty', program', iteration', error := faculty, program, iteration, None;
      var hashtagCount := |Split(line, " ")[0]|;
      var title := if hashtagCount + 1 <= |line| then Trim(line[hashtagCount + 1..]) else "";
      if hashtagCount == 1 {
        faculty' := title;
        semesters := D.Set(semesters, faculty', []);
      }
      if hashtagCount == 2 {
        var programs := D.Get(semesters, faculty);
        if programs.None? {
          error := Some("TypeError");
          return;
        }
        var kept := programs.value;
        var iterations := D.Get(kept, program);
        if iterations.Some? && |iterations.value| == 0 {
          kept := D.Remove(kept, program);
        }
        program' := title;
        semesters := D.Set(semesters, faculty, D.Set(kept, program', []));
      }
      if hashtagCount == 3 {
        iteration' := title;
      }
    }

    /** A semester line of `#createSemesters`: the semester is pushed, and
        from the eighth on `currentSemesters` is the very list stored under
        the current faculty, program and iteration, so each later push shows
        there too; here the list is stored again after each such push. */
    method ReadSemesterLine(line: string, faculty: string, program: string, iteration: string, current: seq<Semester>)
      returns (current': seq<Semester>, error: Option<string>)
      modifies this
      ensures Plain(ParseState(old(Reg()), old(semesters), faculty, program, iteration, current), line)
              == Outcome(ParseState(Reg(), semesters, faculty, program, iteration, current'), error)
      ensures Lines() == old(Lines())
    {
      var semester, err := ParseSemester(line);
      if err.Some? {
        return current, err;
      }
      current', error := current + [semester], None;
      if |current'| >= 8 {
        var programs := D.Get(semesters, faculty);
        var iterations := if programs.Some? then D.Get(programs.value, program) else None;
        if iterations.None? {
          error := Some("TypeError");
          return;
        }
        semesters := D.Set(semesters, faculty, D.Set(programs.value, program, D.Set(iterations.value, iteration, current')));
      }
    }

    /** One pass of the `#createSemesters` loop over the raw line. */
    method ReadLine(rawLine: string, faculty: string, program: string, iteration: string, current: seq<Semester>)
      returns (faculty': string, program': string, iteration': string, current': seq<Semester>, error: Option<string>)
      modifies this
      ensures Step(ParseState(old(Reg()), old(semesters), faculty, program, iteration, current), rawLine)
              == Outcome(ParseState(Reg(), semesters, faculty', program', iteration', current'), error)
      ensures Lines() == old(Lines())
    {
      var line := Trim(ReplaceFirst(rawLine, "\r", ""));
      if Contains(line, "# ") {
        current' := [];
        faculty', program', iteration', error := ReadHeader(line, faculty, program, iteration, current);
      } else {
        faculty', program', iteration' := faculty, program, iteration;
        current', error := ReadSemesterLine(line, faculty, program, iteration, current);
      }
    }

    /** `#createSemesters`. */
    method CreateSemesters() returns (error: Option<string>)
      requires Valid(Reg())
      modifies this
      ensures var o := CreatedSemesters(old(Reg()), old(coursePlanLines));
              Reg() == o.st.reg && semesters == o.st.semesters && error == o.error
      ensures Lines() == old(Lines())
    {
      var currentFaculty := "";
      var currentProgram := "";
      var currentIteration := "";
      var currentSemesters: seq<Semester> := [];
      semesters := [];
      ghost var start := Start(Reg());
      var lines := coursePlanLines;
      var i := 0;
      while i < |lines|
        invariant i <= |lines| && Lines() == old(Lines()) && start == Start(old(Reg()))
        invariant Run(start, lines[..i])
                  == Outcome(ParseState(Reg(), semesters, currentFaculty, currentProgram, currentIteration, currentSemesters), None)
      {
        RunStep(start, lines, i);
        currentFaculty, currentProgram, currentIteration, currentSemesters, error :=
          ReadLine(lines[i], currentFaculty, currentProgram, currentIteration, currentSemesters);
        assert Run(start, lines[..i + 1])
               == Outcome(ParseState(Reg(), semesters, currentFaculty, currentProgram, currentIteration, currentSemesters), error);
        if error.Some? {
          RunStops(start, lines, i + 1);
          return;
        }
        i := i + 1;
      }
      assert lines[..i] == lines;
      error := None;
    }

    /** The `semesters` getter. */
    method Semesters() returns (r: Faculties, error: Option<string>)
      requires Valid(Reg())
      modifies this
      ensures (Reg(), semesters, error)
              == SemestersLoaded(old(Reg()), old(semesters), old(courseLines), old(lessonLines), old(coursePlanLines))
      ensures r == semesters && Lines() == old(Lines())
    {
      if |semesters| == 0 {
        var _, err := Courses();
        if err.Some? {
          return semesters, err;
        }
        error := CreateSemesters();
        return semesters, error;
      }
      r, error := semesters, None;
    }
  }
}
