/** The course-plan file as the scraper writes it and as the web page reads
    it back: a semester line written from slots whose names carry none of the
    file's structural characters is parsed into entries that name the same
    courses, elective titles and options, and every iteration the writer pads
    to eight lines is stored by the reader. */
module RoundTrip {
  import opened Wrappers
  import opened Text
  import M = CoursePlanModel
  import P = PlanFormat
  import C = ItuCourses
  import S = ItuSemesters

  // ---------------------------------------------------------------- names

  /** No character the file uses for its structure: slot and option
      separators, elective brackets, header marks and line ends. */
  predicate Plain(s: string) {
    '=' !in s && '[' !in s && ']' !in s && '*' !in s && '(' !in s && ')' !in s
    && '|' !in s && '#' !in s && '\n' !in s && '\r' !in s
  }

  /** A course code the file carries verbatim: plain, non-empty, and not
      trimmed away at either end of a line. */
  predicate CodeName(s: string) {
    s != [] && Plain(s) && !IsJsSpace(s[0]) && !IsJsSpace(s[|s| - 1])
  }

  /** A slot the writer can write and the reader can read back. */
  predicate SlotFits(slot: M.Slot) {
    match slot
    case Code(code) => CodeName(code)
    case Elective(title, options) => Plain(title) && forall i :: 0 <= i < |options| ==> options[i] != [] && Plain(options[i])
    case EmptyDict => false
  }

  predicate SemesterFits(semester: M.Semester) {
    forall j :: 0 <= j < |semester| ==> SlotFits(semester[j])
  }

  /** No slot separator, header mark or line end. */
  predicate Flat(s: string) {
    '=' !in s && '#' !in s && '\n' !in s && '\r' !in s
  }

  // ---------------------------------------------------------------- one elective

  /** Dropping the first `c` of a text whose first `c` follows `a`. */
  lemma ReplaceFirstAt(a: string, c: char, b: string)
    requires c !in a
    ensures ReplaceFirst(a + [c] + b, [c], "") == a + b
  {
    var s := a + [c] + b;
    assert s == a + ([c] + b);
    CharIndexAfter(a, [c] + b, c);
    IndexOfChar(s, c);
    assert s[..|a|] == a;
    assert s[|a| + 1..] == b;
  }

  /** Joining plain options on `|` gives a text with none of the other
      structural characters. */
  lemma {:induction false} JoinPlain(options: seq<string>)
    requires forall i :: 0 <= i < |options| ==> Plain(options[i])
    ensures var j := Join(options, "|");
      '=' !in j && '[' !in j && ']' !in j && '*' !in j && '(' !in j && ')' !in j
      && '#' !in j && '\n' !in j && '\r' !in j
  {
    if |options| > 1 {
      JoinPlain(options[1..]);
    }
  }

  /** The text of a plain elective: newline removal changes nothing. */
  lemma ElectiveTextPlain(title: string, options: seq<string>)
    requires Plain(title) && forall i :: 0 <= i < |options| ==> Plain(options[i])
    ensures P.ElectiveText(title, options) == "[" + title + "*(" + Join(options, "|") + ")]"
  {
    RemoveAbsentChar(title, '\n');
    forall i | 0 <= i < |options| ensures P.CleanOptions(options)[i] == options[i] {
      RemoveAbsentChar(options[i], '\n');
    }
    assert P.CleanOptions(options) == options;
  }

  /** The elective's brackets go: the first `[` and the first `]`. */
  lemma BracketsDropped(title: string, inner: string)
    requires ']' !in title && ']' !in inner
    ensures ReplaceFirst(ReplaceFirst("[" + title + "*" + inner + "]", "[", ""), "]", "") == title + "*" + inner
  {
    var body := title + "*" + inner;
    assert "[" + title + "*" + inner + "]" == [] + ['['] + (body + "]");
    ReplaceFirstAt([], '[', body + "]");
    assert [] + (body + "]") == body + [']'] + "";
    ReplaceFirstAt(body, ']', "");
    assert body + "" == body;
  }

  /** The title ends at the first `*`. */
  lemma StarSplit(title: string, inner: string)
    requires '*' !in title && '*' !in inner
    ensures Split(title + "*" + inner, "*") == [title, inner]
  {
    SplitAfterPiece(title, inner, '*');
    IndexOfChar(inner, '*');
  }

  /** The parentheses around the options go: the first `(` and the first `)`. */
  lemma ParensDropped(j: string)
    requires ')' !in j
    ensures ReplaceFirst(ReplaceFirst("(" + j + ")", "(", ""), ")", "") == j
  {
    assert "(" + j + ")" == [] + ['('] + (j + ")");
    ReplaceFirstAt([], '(', j + ")");
    assert [] + (j + ")") == j + [')'] + "";
    ReplaceFirstAt(j, ')', "");
    assert j + "" == j;
  }

  /** The reader takes a written elective apart into its title and its
      options; an elective without options reads as the one empty option. */
  lemma ElectiveParts(title: string, options: seq<string>)
    requires Plain(title) && forall i :: 0 <= i < |options| ==> Plain(options[i])
    ensures S.GroupParts(P.ElectiveText(title, options)) == Some((title, if options == [] then [""] else options))
  {
    ElectiveTextPlain(title, options);
    JoinPlain(options);
    var j := Join(options, "|");
    var inner := "(" + j + ")";
    assert P.ElectiveText(title, options) == "[" + title + "*" + inner + "]";
    BracketsDropped(title, inner);
    StarSplit(title, inner);
    ParensDropped(j);
    if options == [] {
      assert Split(j, "|") == [""];
    } else {
      forall i | 0 <= i < |options| ensures '|' !in options[i] { }
      SplitJoin(options, '|');
    }
  }

  // ---------------------------------------------------------------- one semester line

  /** The text of a fitting slot: written without error, free of slot
      separators, header marks and line ends, without space at either end,
      and starting with `[` exactly when it is an elective. */
  lemma SlotTextFits(slot: M.Slot)
    requires SlotFits(slot)
    ensures P.SlotText(slot).Ok?
    ensures var t := P.SlotText(slot).value;
      t != [] && Flat(t) && !IsJsSpace(t[0]) && !IsJsSpace(t[|t| - 1]) && (t[0] == '[' <==> slot.Elective?)
  {
    if slot.Elective? {
      ElectiveTextFits(slot.title, slot.options);
    }
  }

  lemma ElectiveTextFits(title: string, options: seq<string>)
    requires Plain(title) && forall i :: 0 <= i < |options| ==> Plain(options[i])
    ensures var t := P.ElectiveText(title, options);
      t != [] && Flat(t) && t[0] == '[' && t[|t| - 1] == ']'
  {
    ElectiveTextPlain(title, options);
    JoinPlain(options);
    var j := Join(options, "|");
    var t := P.ElectiveText(title, options);
    assert t == "[" + title + "*(" + j + ")]";
    assert t[|t| - 1] == ']';
  }

  /** The writer's texts for a semester's slots, one per slot in order. */
  lemma {:induction false} SlotTexts(semester: M.Semester)
    requires SemesterFits(semester)
    ensures P.FlatMap(semester, P.SlotPiece).Ok?
    ensures var texts := P.FlatMap(semester, P.SlotPiece).value;
      |texts| == |semester| && forall j :: 0 <= j < |semester| ==> texts[j] == P.SlotText(semester[j]).value
  {
    if semester != [] {
      var n := |semester| - 1;
      SlotTexts(semester[..n]);
      SlotTextFits(semester[n]);
    }
  }

  /** `o` is a course of `courses` with code `code`. */
  predicate Found(courses: seq<C.Course>, o: Option<nat>, code: string) {
    o.Some? && o.value < |courses| && courses[o.value].courseCode == code
  }

  /** Looking up non-empty option names finds, for each, a course with that
      name as its code. */
  lemma {:induction false} OptionsFound(reg: C.Registry, names: seq<string>)
    requires C.Valid(reg)
    requires forall i :: 0 <= i < |names| ==> names[i] != []
    ensures var r := S.Options(reg, names);
      forall i :: 0 <= i < |names| ==> Found(r.0.courses, r.1[i], names[i])
  {
    if names != [] {
      var n := |names| - 1;
      OptionsFound(reg, names[..n]);
      var prev := S.Options(reg, names[..n]);
      var lk := C.Find(prev.0, names[n]);
      assert S.Options(reg, names) == (lk.reg, prev.1 + [lk.course]);
      assert Found(lk.reg.courses, lk.course, names[n]);
      var found := prev.1 + [lk.course];
      forall i | 0 <= i < |names| ensures Found(lk.reg.courses, found[i], names[i]) {
        if i < n {
          assert Found(prev.0.courses, prev.1[i], names[..n][i]);
        }
      }
    }
  }

  /** Entry `e` of the page names what slot `slot` of the file holds: a
      course with the slot's code, or a group with the elective's title whose
      options are courses with the elective's codes (the one `null` option
      when the elective has none). */
  predicate Recovers(courses: seq<C.Course>, e: S.Entry, slot: M.Slot) {
    match slot
    case Code(code) => e.CourseRef? && Found(courses, Some(e.course), code)
    case Elective(title, options) =>
      e.Group? && e.title == title
      && if options == [] then e.options == [None]
         else |e.options| == |options| && forall i :: 0 <= i < |options| ==> Found(courses, e.options[i], options[i])
    case EmptyDict => false
  }

  lemma RecoversLater(courses: seq<C.Course>, later: seq<C.Course>, e: S.Entry, slot: M.Slot)
    requires courses <= later && Recovers(courses, e, slot)
    ensures Recovers(later, e, slot)
  {
    if slot.Elective? && slot.options != [] {
      forall i | 0 <= i < |slot.options| ensures Found(later, e.options[i], slot.options[i]) {
        assert Found(courses, e.options[i], slot.options[i]);
      }
    }
  }

  /** One written slot reads back as an entry naming what it holds. */
  lemma PieceRecovers(reg: C.Registry, slot: M.Slot)
    requires C.Valid(reg) && "" !in reg.dict && SlotFits(slot)
    ensures P.SlotText(slot).Ok?
    ensures var p := S.Piece(reg, P.SlotText(slot).value);
      p.error.None? && p.value.Some? && Recovers(p.reg.courses, p.value.value, slot)
  {
    SlotTextFits(slot);
    if slot.Elective? {
      ElectiveParts(slot.title, slot.options);
      var names := if slot.options == [] then [""] else slot.options;
      if slot.options != [] {
        OptionsFound(reg, names);
      }
    }
  }

  /** The written slots of a semester read back, in order, as entries
      naming what they hold. */
  lemma {:induction false} PiecesRecover(reg: C.Registry, semester: M.Semester, texts: seq<string>)
    requires C.Valid(reg) && "" !in reg.dict && SemesterFits(semester)
    requires |texts| == |semester| && forall j :: 0 <= j < |semester| ==> P.SlotText(semester[j]) == Ok(texts[j])
    ensures var p := S.Pieces(reg, texts);
      Entries(p, semester)
  {
    if texts != [] {
      var n := |texts| - 1;
      PiecesRecover(reg, semester[..n], texts[..n]);
      var prev := S.Pieces(reg, texts[..n]);
      PieceRecovers(prev.reg, semester[n]);
      var pc := S.Piece(prev.reg, texts[n]);
      var es := prev.value + [pc.value.value];
      assert S.Pieces(reg, texts) == S.Parsed(pc.reg, es, None);
      NamesLater(prev.reg.courses, pc.reg.courses, prev.value, semester[..n]);
      NamesSnoc(pc.reg.courses, prev.value, pc.value.value, semester[..n], semester[n]);
      assert semester[..n] + [semester[n]] == semester;
    }
  }

  /** A semester line the writer produces from fitting slots is read back as
      it is written: the reader's cleaning leaves it alone, it is not taken
      for a header, and its slots parse without error into entries naming
      what the slots hold (an empty semester is an empty line, and reads as
      no entry). */
  lemma SemesterRoundTrip(reg: C.Registry, semester: M.Semester)
    requires C.Valid(reg) && "" !in reg.dict && SemesterFits(semester)
    ensures P.SemesterLine(semester).Ok?
    ensures var line := P.SemesterLine(semester).value;
      S.PlanLine(line) == line && !S.IsHeader(line)
      && Entries(S.Pieces(reg, Split(line, "=")), semester)
  {
    SlotTexts(semester);
    var texts := P.FlatMap(semester, P.SlotPiece).value;
    TextsFit(semester, texts);
    LineKept(texts);
    if texts == [] {
      assert Split("", "=") == [""];
      S.EmptySlotSkipped(reg);
      assert [""][..0] == [];
    } else {
      SplitJoin(texts, '=');
      PiecesRecover(reg, semester, texts);
    }
  }

  /** The texts of fitting slots are flat, and the line they make neither
      starts nor ends with whitespace. */
  lemma TextsFit(semester: M.Semester, texts: seq<string>)
    requires SemesterFits(semester)
    requires |texts| == |semester| && forall j :: 0 <= j < |semester| ==> texts[j] == P.SlotText(semester[j]).value
    ensures forall j :: 0 <= j < |texts| ==> Flat(texts[j])
    ensures texts != [] ==> texts[0] != [] && !IsJsSpace(texts[0][0])
    ensures texts != [] ==> var t := texts[|texts| - 1]; t != [] && !IsJsSpace(t[|t| - 1])
  {
    forall j | 0 <= j < |texts| ensures Flat(texts[j]) {
      SlotTextFits(semester[j]);
    }
    if texts != [] {
      SlotTextFits(semester[0]);
      SlotTextFits(semester[|texts| - 1]);
    }
  }

  /** Slot texts joined on `=` make a line the reader neither cleans nor
      takes for a header. */
  lemma LineKept(texts: seq<string>)
    requires forall j :: 0 <= j < |texts| ==> Flat(texts[j])
    requires texts != [] ==> texts[0] != [] && !IsJsSpace(texts[0][0])
    requires texts != [] ==> var t := texts[|texts| - 1]; t != [] && !IsJsSpace(t[|t| - 1])
    ensures var line := Join(texts, "=");
      S.PlanLine(line) == line && !S.IsHeader(line) && (texts == [] ==> line == "")
  {
    var line := Join(texts, "=");
    JoinChars(texts, "=", '#');
    JoinChars(texts, "=", '\r');
    RemoveAbsentChar(line, '\r');
    NotContainsStartingWith(line, "# ");
    if texts != [] {
      JoinFirstChar(texts, "=");
      JoinLastChar(texts, "=");
      StripFixed(JavaScript, line);
    }
  }

  /** The parsed line holds, slot by slot, entries naming what the
      semester's slots hold, and raised nothing. */
  predicate Entries(p: S.Parsed<S.Semester>, semester: M.Semester) {
    p.error.None? && Names(p.reg.courses, p.value, semester)
  }

  predicate Names(courses: seq<C.Course>, es: S.Semester, semester: M.Semester) {
    |es| == |semester| && forall j :: 0 <= j < |semester| ==> Recovers(courses, es[j], semester[j])
  }

  lemma NamesLater(courses: seq<C.Course>, later: seq<C.Course>, es: S.Semester, semester: M.Semester)
    requires courses <= later && Names(courses, es, semester)
    ensures Names(later, es, semester)
  {
    forall j | 0 <= j < |semester| ensures Recovers(later, es[j], semester[j]) {
      RecoversLater(courses, later, es[j], semester[j]);
    }
  }

  lemma NamesSnoc(courses: seq<C.Course>, es: S.Semester, e: S.Entry, semester: M.Semester, slot: M.Slot)
    requires Names(courses, es, semester) && Recovers(courses, e, slot)
    ensures Names(courses, es + [e], semester + [slot])
  {
    var es', semester' := es + [e], semester + [slot];
    forall j | 0 <= j < |semester'| ensures Recovers(courses, es'[j], semester'[j]) {
      if j < |semester| {
        assert es'[j] == es[j] && semester'[j] == semester[j];
      }
    }
  }

  // ---------------------------------------------------------------- lines of an iteration

  /** A reader state inside an open program, before or after any semester
      line of an iteration. */
  predicate Ready(st: S.ParseState) {
    C.Valid(st.reg) && "" !in st.reg.dict && S.ProgramOpen(st) && S.Stored(st)
  }

  /** `o` continues `st` by one semester per element of `sems`, each naming
      what that semester holds, in the same faculty, program and iteration. */
  predicate Continues(st: S.ParseState, o: S.Outcome, sems: seq<M.Semester>) {
    o.error.None? && o.st.faculty == st.faculty && o.st.program == st.program && o.st.iteration == st.iteration
    && st.reg.courses <= o.st.reg.courses
    && |o.st.current| == |st.current| + |sems| && o.st.current[..|st.current|] == st.current
    && forall k :: 0 <= k < |sems| ==> Names(o.st.reg.courses, o.st.current[|st.current| + k], sems[k])
  }

  /** One written semester line, read inside an open program, appends one
      semester naming what the written one holds, and raises nothing. */
  lemma SemesterStep(st: S.ParseState, semester: M.Semester)
    requires Ready(st) && SemesterFits(semester)
    ensures P.SemesterLine(semester).Ok?
    ensures var o := S.Step(st, P.SemesterLine(semester).value);
      Continues(st, o, [semester]) && Ready(o.st)
  {
    SemesterRoundTrip(st.reg, semester);
    var line := P.SemesterLine(semester).value;
    var p := S.Pieces(st.reg, Split(line, "="));
    S.PlainEffect(st, line);
    var st2 := st.(reg := p.reg, current := st.current + [p.value]);
    S.StoreEffect(st2);
    S.StepStored(st, line);
    S.StepKeepsOpen(st, line);
    var o := S.Step(st, line);
    assert o.st.current[..|st.current|] == st.current;
    assert o.st.current[|st.current| + 0] == p.value;
  }

  lemma ContinuesSnoc(st: S.ParseState, prev: S.Outcome, o: S.Outcome, sems: seq<M.Semester>, semester: M.Semester)
    requires Continues(st, prev, sems) && Continues(prev.st, o, [semester])
    ensures Continues(st, o, sems + [semester])
  {
    var m := |st.current|;
    var sems' := sems + [semester];
    forall k | 0 <= k < |sems'| ensures Names(o.st.reg.courses, o.st.current[m + k], sems'[k]) {
      if k < |sems| {
        assert o.st.current[m + k] == prev.st.current[m + k];
        assert Names(prev.st.reg.courses, prev.st.current[m + k], sems[k]);
        NamesLater(prev.st.reg.courses, o.st.reg.courses, prev.st.current[m + k], sems[k]);
      } else {
        assert Names(o.st.reg.courses, o.st.current[|prev.st.current| + 0], [semester][0]);
      }
    }
    assert o.st.current[..m] == prev.st.current[..|prev.st.current|][..m];
  }

  /** The reader's loop over any step: the same stopping rule as `S.Run`. */
  function Loop(st: S.ParseState, lines: seq<string>, step: (S.ParseState, string) -> S.Outcome): S.Outcome {
    if lines == [] then S.Outcome(st, None)
    else
      var prev := Loop(st, lines[..|lines| - 1], step);
      if prev.error.Some? then prev else step(prev.st, lines[|lines| - 1])
  }

  lemma {:induction false} LoopAppend(st: S.ParseState, a: seq<string>, b: seq<string>, step: (S.ParseState, string) -> S.Outcome)
    requires Loop(st, a, step).error.None?
    ensures Loop(st, a + b, step) == Loop(Loop(st, a, step).st, b, step)
  {
    if b == [] {
      assert a + b == a;
    } else {
      var n := |b| - 1;
      LoopAppend(st, a, b[..n], step);
      var ab := a + b;
      assert ab[..|ab| - 1] == a + b[..n];
      assert ab[|ab| - 1] == b[n];
    }
  }

  lemma {:induction false} LoopIsRun(st: S.ParseState, lines: seq<string>)
    ensures Loop(st, lines, S.Step) == S.Run(st, lines)
  {
    if lines != [] {
      LoopIsRun(st, lines[..|lines| - 1]);
    }
  }

  /** Reading `a` then `b`, when `a` raised nothing, is reading `b` from
      where `a` left off. */
  lemma RunAppend(st: S.ParseState, a: seq<string>, b: seq<string>)
    requires S.Run(st, a).error.None?
    ensures S.Run(st, a + b) == S.Run(S.Run(st, a).st, b)
  {
    LoopIsRun(st, a);
    LoopIsRun(st, a + b);
    LoopIsRun(S.Run(st, a).st, b);
    LoopAppend(st, a, b, S.Step);
  }

  /** The written lines of fitting semesters, read inside an open program,
      append one semester per line, each naming what the written one holds. */
  lemma RunSemesters(st: S.ParseState, sems: seq<M.Semester>, lines: seq<string>)
    requires Ready(st)
    requires |lines| == |sems| && forall k :: 0 <= k < |sems| ==> SemesterFits(sems[k]) && P.SemesterLine(sems[k]) == Ok(lines[k])
    ensures Continues(st, S.Run(st, lines), sems) && Ready(S.Run(st, lines).st)
  {
    forall x: S.ParseState, k | Ready(x) && 0 <= k < |sems|
      ensures Continues(x, S.Step(x, lines[k]), [sems[k]]) && Ready(S.Step(x, lines[k]).st)
    {
      SemesterStep(x, sems[k]);
    }
    LoopSemesters(st, sems, lines, S.Step);
    LoopIsRun(st, lines);
  }

  /** The same over any step that reads each line as its semester. */
  lemma {:induction false} LoopSemesters(st: S.ParseState, sems: seq<M.Semester>, lines: seq<string>,
                                         step: (S.ParseState, string) -> S.Outcome)
    requires Ready(st) && |lines| == |sems|
    requires forall x: S.ParseState, k {:trigger step(x, lines[k])} :: Ready(x) && 0 <= k < |sems| ==>
               Continues(x, step(x, lines[k]), [sems[k]]) && Ready(step(x, lines[k]).st)
    ensures Continues(st, Loop(st, lines, step), sems) && Ready(Loop(st, lines, step).st)
  {
    if lines == [] {
      assert st.current[..|st.current|] == st.current;
    } else {
      var n := |lines| - 1;
      assert sems[..n] + [sems[n]] == sems;
      LoopSemesters(st, sems[..n], lines[..n], step);
      var prev := Loop(st, lines[..n], step);
      ContinuesSnoc(st, prev, Loop(st, lines, step), sems[..n], sems[n]);
    }
  }

  // ---------------------------------------------------------------- one iteration

  /** An iteration name the header line carries verbatim. */
  predicate IterationName(name: string) {
    name != [] && '\r' !in name && !IsJsSpace(name[0]) && !IsJsSpace(name[|name| - 1])
  }

  /** The writer's `### name` line is read as a level-3 header naming the
      iteration. */
  lemma HeaderLine(name: string)
    requires IterationName(name)
    ensures var h := "### " + name;
      S.PlanLine(h) == h && S.IsHeader(h) && S.Level(h) == 3 && S.Title(h) == name
  {
    HeaderKept(name);
    HeaderLevel(name);
    var h := "### " + name;
    assert h[4..] == name;
    StripFixed(JavaScript, name);
  }

  lemma HeaderKept(name: string)
    requires IterationName(name)
    ensures S.PlanLine("### " + name) == "### " + name
  {
    var h := "### " + name;
    RemoveAbsentChar(h, '\r');
    assert h[|h| - 1] == name[|name| - 1];
    StripFixed(JavaScript, h);
  }

  lemma HeaderLevel(name: string)
    ensures S.IsHeader("### " + name) && S.Level("### " + name) == 3
  {
    var h := "### " + name;
    assert h[2..4] == "# ";
    assert MatchAt(h, "# ", 2);
    assert h == "###" + [' '] + name;
    SplitAfterPiece("###", name, ' ');
  }

  /** The header of an iteration, read inside an open program, starts an
      empty semester list under that iteration's name. */
  lemma HeaderStep(st: S.ParseState, name: string)
    requires C.Valid(st.reg) && "" !in st.reg.dict && S.ProgramOpen(st) && IterationName(name)
    ensures S.Run(st, ["### " + name]) == S.Outcome(st.(current := [], iteration := name), None)
    ensures Ready(st.(current := [], iteration := name))
  {
    var h := "### " + name;
    HeaderLine(name);
    S.HeaderEffect(st, h);
    assert [h][..0] == [];
  }

  /** A fitting semester is written without error. */
  lemma SemesterLineOk(semester: M.Semester)
    requires SemesterFits(semester)
    ensures P.SemesterLine(semester).Ok?
  {
    SlotTexts(semester);
  }

  /** The writer's lines for fitting semesters, one per semester in order. */
  lemma {:induction false} SemesterLines(plan: M.Plan)
    requires forall k :: 0 <= k < |plan| ==> SemesterFits(plan[k])
    ensures P.FlatMap(plan, P.SemesterPiece).Ok?
    ensures var ls := P.FlatMap(plan, P.SemesterPiece).value;
      |ls| == |plan| && forall k :: 0 <= k < |plan| ==> P.SemesterLine(plan[k]) == Ok(ls[k])
  {
    if plan != [] {
      var n := |plan| - 1;
      SemesterLines(plan[..n]);
      SemesterLineOk(plan[n]);
    }
  }

  /** The blank lines padding an iteration are the lines of empty semesters. */
  lemma PaddedLines(plan: M.Plan)
    requires forall k :: 0 <= k < |plan| ==> SemesterFits(plan[k])
    ensures P.IterationLines(Some(plan)).Ok?
    ensures var padded := plan + seq(P.Padding(|plan|), _ => []);
      var body := P.IterationLines(Some(plan)).value;
      |body| == |padded| >= 8
      && forall k :: 0 <= k < |padded| ==> SemesterFits(padded[k]) && P.SemesterLine(padded[k]) == Ok(body[k])
  {
    SemesterLines(plan);
    assert P.FlatMap([], P.SlotPiece) == Ok([]);
  }

  /** What reading an iteration's written lines leaves, from an empty
      semester list: the stored list, at least eight semesters, the written
      ones first and then the padding as empty semesters. */
  predicate IterationRead(st: S.ParseState, o: S.Outcome, plan: M.Plan) {
    o.error.None? && o.st.faculty == st.faculty && o.st.program == st.program && o.st.iteration == st.iteration
    && |o.st.current| == |plan| + P.Padding(|plan|)
    && S.Get3(o.st.semesters, st.faculty, st.program, st.iteration) == Some(o.st.current)
    && (forall k :: 0 <= k < |plan| ==> Names(o.st.reg.courses, o.st.current[k], plan[k]))
    && (forall k :: |plan| <= k < |o.st.current| ==> o.st.current[k] == [])
  }

  /** The semester lines and padding of an iteration, read after its
      header, are stored under it. */
  lemma PaddedRun(st: S.ParseState, plan: M.Plan)
    requires Ready(st) && st.current == []
    requires forall k :: 0 <= k < |plan| ==> SemesterFits(plan[k])
    ensures P.IterationLines(Some(plan)).Ok?
    ensures IterationRead(st, S.Run(st, P.IterationLines(Some(plan)).value), plan)
  {
    PaddedLines(plan);
    var padded := plan + seq(P.Padding(|plan|), _ => []);
    RunSemesters(st, padded, P.IterationLines(Some(plan)).value);
    PaddedRead(st, S.Run(st, P.IterationLines(Some(plan)).value), plan, padded);
  }

  lemma PaddedRead(st: S.ParseState, o: S.Outcome, plan: M.Plan, padded: seq<M.Semester>)
    requires st.current == [] && padded == plan + seq(P.Padding(|plan|), _ => [])
    requires Continues(st, o, padded) && Ready(o.st)
    ensures IterationRead(st, o, plan)
  {
    PaddedNames(st, o, plan, padded);
    PaddedEmpty(st, o, plan, padded);
  }

  lemma PaddedNames(st: S.ParseState, o: S.Outcome, plan: M.Plan, padded: seq<M.Semester>)
    requires st.current == [] && padded == plan + seq(P.Padding(|plan|), _ => [])
    requires Continues(st, o, padded)
    ensures forall k :: 0 <= k < |plan| ==> Names(o.st.reg.courses, o.st.current[k], plan[k])
  {
    forall k | 0 <= k < |plan| ensures Names(o.st.reg.courses, o.st.current[k], plan[k]) {
      assert Names(o.st.reg.courses, o.st.current[|st.current| + k], padded[k]);
    }
  }

  lemma PaddedEmpty(st: S.ParseState, o: S.Outcome, plan: M.Plan, padded: seq<M.Semester>)
    requires st.current == [] && padded == plan + seq(P.Padding(|plan|), _ => [])
    requires Continues(st, o, padded)
    ensures forall k :: |plan| <= k < |o.st.current| ==> o.st.current[k] == []
  {
    forall k | |plan| <= k < |o.st.current| ensures o.st.current[k] == [] {
      assert padded[k] == [];
      assert Names(o.st.reg.courses, o.st.current[|st.current| + k], padded[k]);
    }
  }

  /** An iteration the writer wrote from fitting semesters, read inside an
      open program, is stored under its name in that faculty and program: at
      least eight semesters, each written one read back as entries naming
      what it holds, then the padding read back as empty semesters. */
  lemma IterationRoundTrip(st: S.ParseState, name: string, plan: M.Plan)
    requires C.Valid(st.reg) && "" !in st.reg.dict && S.ProgramOpen(st) && IterationName(name)
    requires forall k :: 0 <= k < |plan| ==> SemesterFits(plan[k])
    ensures P.IterationBlock((name, Some(plan))).Ok?
    ensures IterationRead(st.(iteration := name), S.Run(st, P.IterationBlock((name, Some(plan))).value), plan)
  {
    var h := "### " + name;
    HeaderStep(st, name);
    var st1 := st.(current := [], iteration := name);
    PaddedRun(st1, plan);
    var body := P.IterationLines(Some(plan)).value;
    assert P.IterationBlock((name, Some(plan))) == Ok([h] + body);
    RunAppend(st, [h], body);
  }
}
