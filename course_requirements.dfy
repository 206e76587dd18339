/** The prerequisite text of a course, as the browser-side `Course` reads
    it: the text is cut into lines before every "veya" (or) and "ve" (and),
    and the names become OR-groups, one group per "ve". */
module CourseRequirements {
  import opened Text

  /** Texts that stand for no prerequisite, or for one the reader does not
      handle: either way no group is made. */
  predicate NoRequirementsText(text: string) {
    Contains(text, "Yok") || Contains(text, "planının") || Contains(text, "Diğer")
    || Contains(text, "Özel") || Contains(text, "için")
  }

  /** The `replaceAll` chain: a line break before every "veya" and every
      "ve" (so "veya" gets two), then no parentheses. */
  function Expand(text: string): string {
    ReplaceAll(ReplaceAll(ReplaceAll(ReplaceAll(text, "veya", "\nveya"), "ve", "\nve"), "(", ""), ")", "")
  }

  /** The words of one line: trimmed, then split on single spaces. */
  function LineWords(line: string): (r: seq<string>)
    ensures |r| >= 1
  {
    Split(Trim(line), " ")
  }

  /** The words of every line. */
  function WordLines(lines: seq<string>): (r: seq<seq<string>>)
    ensures |r| == |lines|
  {
    seq(|lines|, i requires 0 <= i < |lines| => LineWords(lines[i]))
  }

  /** `words[k]` in a JavaScript concatenation: `"undefined"` past the end. */
  function WordAt(words: seq<string>, k: nat): string {
    if k < |words| then words[k] else "undefined"
  }

  /** The name the first line opens the first group with. */
  function FirstName(words: seq<string>): string {
    WordAt(words, 0) + " " + WordAt(words, 1)
  }

  /** The name a later line carries, after its gate word. */
  function NameOf(words: seq<string>): string {
    WordAt(words, 1) + " " + WordAt(words, 2)
  }

  /** Line `i`, split into words, read into the groups so far. */
  function Step(groups: seq<seq<string>>, i: nat, words: seq<string>): (r: seq<seq<string>>)
    requires i == 0 || groups != []
    ensures r != []
  {
    if i == 0 then groups + [[FirstName(words)]]
    else if WordAt(words, 0) == "veya" then groups[..|groups| - 1] + [groups[|groups| - 1] + [NameOf(words)]]
    else if WordAt(words, 0) == "ve" then groups + [[NameOf(words)]]
    else groups
  }

  /** The groups of a sequence of lines, each split into words. */
  function Groups(lines: seq<seq<string>>): (r: seq<seq<string>>)
    ensures lines != [] <==> r != []
  {
    if lines == [] then []
    else Step(Groups(lines[..|lines| - 1]), |lines| - 1, lines[|lines| - 1])
  }

  /** `#createRequirementNames`, as a value: the OR-groups of AND-ed
      prerequisites named in `text`. */
  function RequirementNames(text: string): seq<seq<string>> {
    if NoRequirementsText(text) then [] else Groups(WordLines(Split(Expand(text), "\n")))
  }

  /** A text gives no group exactly when it names no prerequisite the reader
      handles; any other text, even a blank one, gives at least one. */
  lemma NoRequirements(text: string)
    ensures RequirementNames(text) == [] <==> NoRequirementsText(text)
  {
  }

  lemma GroupsStep(lines: seq<seq<string>>, i: nat)
    requires i < |lines|
    ensures i == 0 || Groups(lines[..i]) != []
    ensures Groups(lines[..i + 1]) == Step(Groups(lines[..i]), i, lines[i])
  {
    assert lines[..i + 1][..i] == lines[..i];
  }

  /** `#createRequirementNames`: the groups pushed line by line. */
  method CreateRequirementNames(requirementsText: string) returns (names: seq<seq<string>>)
    ensures names == RequirementNames(requirementsText)
  {
    names := [];
    if Contains(requirementsText, "Yok") {
      return;
    } else if Contains(requirementsText, "planının") || Contains(requirementsText, "Diğer")
           || Contains(requirementsText, "Özel") || Contains(requirementsText, "için") {
      return;
    }
    var lines := Split(Expand(requirementsText), "\n");
    ghost var wordLines := WordLines(lines);
    var i := 0;
    while i < |lines|
      invariant 0 <= i <= |lines|
      invariant names == Groups(wordLines[..i])
    {
      GroupsStep(wordLines, i);
      var words := Split(Trim(lines[i]), " ");
      assert words == wordLines[i];
      if i == 0 {
        names := names + [[WordAt(words, 0) + " " + WordAt(words, 1)]];
      } else {
        var requirementName := WordAt(words, 1) + " " + WordAt(words, 2);
        var logicGate := words[0];
        if logicGate == "veya" {
          names := names[..|names| - 1] + [names[|names| - 1] + [requirementName]];
        } else if logicGate == "ve" {
          names := names + [[requirementName]];
        }
      }
      i := i + 1;
    }
    assert wordLines[..i] == wordLines;
  }

  // ------------------------------------------------------------- properties

  /** Every name of the lines, in order: the first line's, then that of every
      later line opened by "ve" or "veya". */
  function Names(lines: seq<seq<string>>): seq<string> {
    if lines == [] then []
    else
      var last := lines[|lines| - 1];
      Names(lines[..|lines| - 1])
      + (if |lines| == 1 then [FirstName(last)]
         else if WordAt(last, 0) == "veya" || WordAt(last, 0) == "ve" then [NameOf(last)]
         else [])
  }

  /** The number of later lines opened by "ve". */
  function AndCount(lines: seq<seq<string>>): nat {
    if |lines| <= 1 then 0
    else AndCount(lines[..|lines| - 1]) + (if WordAt(lines[|lines| - 1], 0) == "ve" then 1 else 0)
  }

  function Flatten(groups: seq<seq<string>>): seq<string> {
    if groups == [] then [] else Flatten(groups[..|groups| - 1]) + groups[|groups| - 1]
  }

  lemma FlattenSnoc(groups: seq<seq<string>>, g: seq<string>)
    ensures Flatten(groups + [g]) == Flatten(groups) + g
  {
    assert (groups + [g])[..|groups|] == groups;
  }

  /** The groups hold every name of the text in order, and a new group
      starts at the first line and at every "ve" line. */
  lemma GroupsNames(lines: seq<seq<string>>)
    ensures Flatten(Groups(lines)) == Names(lines)
    ensures lines != [] ==> |Groups(lines)| == 1 + AndCount(lines)
  {
    GroupsFlatten(lines);
    GroupsCount(lines);
  }

  lemma {:induction false} GroupsFlatten(lines: seq<seq<string>>)
    ensures Flatten(Groups(lines)) == Names(lines)
  {
    if lines != [] {
      var init := lines[..|lines| - 1];
      var last := lines[|lines| - 1];
      GroupsFlatten(init);
      var gs := Groups(init);
      if |lines| == 1 {
        FlattenSnoc(gs, [FirstName(last)]);
      } else if WordAt(last, 0) == "veya" {
        var front := gs[..|gs| - 1];
        assert gs == front + [gs[|gs| - 1]];
        FlattenLastAppend(front, gs[|gs| - 1], NameOf(last));
      } else if WordAt(last, 0) == "ve" {
        FlattenSnoc(gs, [NameOf(last)]);
      }
    }
  }

  /** Adding a name to the last group adds it at the end of the names. */
  lemma FlattenLastAppend(front: seq<seq<string>>, last: seq<string>, name: string)
    ensures Flatten(front + [last + [name]]) == Flatten(front + [last]) + [name]
  {
    FlattenSnoc(front, last);
    FlattenSnoc(front, last + [name]);
    assert Flatten(front) + (last + [name]) == Flatten(front) + last + [name];
  }

  lemma {:induction false} GroupsCount(lines: seq<seq<string>>)
    ensures lines != [] ==> |Groups(lines)| == 1 + AndCount(lines)
  {
    if |lines| > 1 {
      GroupsCount(lines[..|lines| - 1]);
    }
  }

  /** No group is empty. */
  lemma {:induction false} GroupsNonEmpty(lines: seq<seq<string>>)
    ensures forall k :: 0 <= k < |Groups(lines)| ==> Groups(lines)[k] != []
  {
    if lines != [] {
      GroupsNonEmpty(lines[..|lines| - 1]);
    }
  }

  /** The first group opens with the first line's first two words. */
  lemma {:induction false} FirstGroup(lines: seq<seq<string>>)
    requires lines != []
    ensures Groups(lines)[0] != [] && Groups(lines)[0][0] == FirstName(lines[0])
  {
    if |lines| > 1 {
      var init := lines[..|lines| - 1];
      FirstGroup(init);
      GroupsNonEmpty(init);
    }
  }

  /** A "veya" line adds its name to the last group. */
  lemma OrLine(lines: seq<seq<string>>, i: nat, front: seq<seq<string>>, last: seq<string>, name: string)
    requires 0 < i < |lines| && Groups(lines[..i]) == front + [last]
    requires WordAt(lines[i], 0) == "veya" && NameOf(lines[i]) == name
    ensures Groups(lines[..i + 1]) == front + [last + [name]]
  {
    GroupsStep(lines, i);
    assert (front + [last])[..|front|] == front;
  }

  /** A "ve" line opens a new group with its name. */
  lemma AndLine(lines: seq<seq<string>>, i: nat, name: string)
    requires 0 < i < |lines| && WordAt(lines[i], 0) == "ve" && NameOf(lines[i]) == name
    ensures Groups(lines[..i + 1]) == Groups(lines[..i]) + [[name]]
  {
    GroupsStep(lines, i);
  }

  /** The first line opens the first group. */
  lemma FirstLine(lines: seq<seq<string>>, name: string)
    requires 0 < |lines| && FirstName(lines[0]) == name
    ensures Groups(lines[..1]) == [] + [[name]]
  {
    GroupsStep(lines, 0);
    assert lines[..0] == [];
  }

  /** A blank line (left between the two line breaks "veya" gets) adds
      nothing. */
  lemma BlankLine(lines: seq<seq<string>>, i: nat)
    requires 0 < i < |lines| && lines[i] == [""]
    ensures Groups(lines[..i + 1]) == Groups(lines[..i])
  {
    GroupsStep(lines, i);
  }

  /** The worked example in the reader's own comment, the text
      "(MAT 201 MIN DDveya MAT 201E MIN DDveya MAT 210 MIN DDveya MAT 210E MIN DD)ve (EHB 211 MIN DDveya EHB 211E MIN DD)",
      stated from its split lines on (`ExampleLines`): every "veya" gets two
      line breaks, the second from the "ve" inside it, so a blank line comes
      before each "veya" line, and the parentheses are gone. Those lines give
      one group of the four MAT courses and one of the two EHB courses. */
  lemma CommentExample()
    ensures Groups(ExampleLines) == [["MAT 201", "MAT 201E", "MAT 210", "MAT 210E"], ["EHB 211", "EHB 211E"]]
  {
    var ls := ExampleLines;
    var m := ["MAT 201", "MAT 201E", "MAT 210", "MAT 210E"];
    ExampleMat();
    AndLine(ls, 7, "EHB 211");
    BlankLine(ls, 8);
    OrLine(ls, 9, [m], ["EHB 211"], "EHB 211E");
    assert ls[..10] == ls;
    assert ["EHB 211"] + ["EHB 211E"] == ["EHB 211", "EHB 211E"];
  }

  /** The example's lines, split into words. */
  const ExampleLines: seq<seq<string>> :=
    [["MAT", "201", "MIN", "DD"], [""], ["veya", "MAT", "201E", "MIN", "DD"], [""],
     ["veya", "MAT", "210", "MIN", "DD"], [""], ["veya", "MAT", "210E", "MIN", "DD"],
     ["ve", "EHB", "211", "MIN", "DD"], [""], ["veya", "EHB", "211E", "MIN", "DD"]]

  /** The example's first seven lines give the group of the MAT courses. */
  lemma ExampleMat()
    ensures Groups(ExampleLines[..7]) == [["MAT 201", "MAT 201E", "MAT 210", "MAT 210E"]]
  {
    ExampleMatThree();
    BlankLine(ExampleLines, 5);
    OrLine(ExampleLines, 6, [], ["MAT 201", "MAT 201E", "MAT 210"], "MAT 210E");
    assert ["MAT 201", "MAT 201E", "MAT 210"] + ["MAT 210E"] == ["MAT 201", "MAT 201E", "MAT 210", "MAT 210E"];
    assert [] + [["MAT 201", "MAT 201E", "MAT 210", "MAT 210E"]] == [["MAT 201", "MAT 201E", "MAT 210", "MAT 210E"]];
  }

  lemma ExampleMatThree()
    ensures Groups(ExampleLines[..5]) == [["MAT 201", "MAT 201E", "MAT 210"]]
  {
    ExampleMatTwo();
    BlankLine(ExampleLines, 3);
    OrLine(ExampleLines, 4, [], ["MAT 201", "MAT 201E"], "MAT 210");
    assert ["MAT 201", "MAT 201E"] + ["MAT 210"] == ["MAT 201", "MAT 201E", "MAT 210"];
    assert [] + [["MAT 201", "MAT 201E", "MAT 210"]] == [["MAT 201", "MAT 201E", "MAT 210"]];
  }

  lemma ExampleMatTwo()
    ensures Groups(ExampleLines[..3]) == [["MAT 201", "MAT 201E"]]
  {
    FirstLine(ExampleLines, "MAT 201");
    BlankLine(ExampleLines, 1);
    OrLine(ExampleLines, 2, [], ["MAT 201"], "MAT 201E");
    assert ["MAT 201"] + ["MAT 201E"] == ["MAT 201", "MAT 201E"];
    assert [] + [["MAT 201", "MAT 201E"]] == [["MAT 201", "MAT 201E"]];
  }

  /** A course without prerequisite text (every course the reader creates
      on its own has one) gets one group holding the name `" undefined"`:
      the first line has no words to take. */
  lemma BlankTextNamesUndefined()
    ensures RequirementNames("") == [[" undefined"]]
  {
    assert !Contains("", "Yok") && !Contains("", "planının") && !Contains("", "Diğer")
        && !Contains("", "Özel") && !Contains("", "için");
    assert Expand("") == "";
    assert Split("", "\n") == [""];
    assert LineWords("") == [""];
    assert WordLines([""]) == [[""]];
    assert FirstName([""]) == " undefined";
    assert Groups([[""]]) == Step([], 0, [""]) == [[" undefined"]];
  }

  /** The requirement groups as intended: a blank text names no
      prerequisite. */
  function RequirementNamesIntended(text: string): seq<seq<string>> {
    if Trim(text) == "" then [] else RequirementNames(text)
  }

  /** Under the intended reading, a blank text gives no group, and every
      other text gives the groups the reader gives. */
  lemma IntendedBlank(text: string)
    ensures Trim(text) == "" ==> RequirementNamesIntended(text) == []
    ensures Trim(text) != "" ==> RequirementNamesIntended(text) == RequirementNames(text)
    ensures RequirementNamesIntended("") == [] != RequirementNames("")
  {
    BlankTextNamesUndefined();
    assert Trim("") == "";
  }
}
