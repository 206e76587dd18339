/** How the curriculum scraper turns a scraped program label such as
    "Fizik Mühendisliği Lisans Programı (%100 İngilizce) 2010-2011 / Güz Dönemi Sonrası"
    into a program name and an iteration name, and the key
    "{name} ({program type})" under which the program is filed. */
module ProgramLabel {
  import opened Wrappers
  import opened Text

  /** The iteration name used when a label carries no year range. */
  const DEFAULT_ITERATION_NAME: string := "Tüm Öğrenciler İçin"

  /** The regular expression `\d{4}` matches at `j`. */
  predicate YearAt(s: string, j: int) {
    0 <= j && j + 4 <= |s| && IsDigit(s[j]) && IsDigit(s[j + 1]) && IsDigit(s[j + 2]) && IsDigit(s[j + 3])
  }

  /** The regular expression `\%\d{2,3}|\\d{2,3}%` matches at `j`: a percent
      sign and two digits, or a backslash, two or three letters `d` and a
      percent sign (the second alternative escapes the backslash, not the `d`). */
  predicate MarkerAt(s: string, j: int) {
    (0 <= j && j + 3 <= |s| && s[j] == '%' && IsDigit(s[j + 1]) && IsDigit(s[j + 2]))
    || (0 <= j && j + 4 <= |s| && s[j] == '\\' && s[j + 1] == 'd' && s[j + 2] == 'd'
        && (s[j + 3] == '%' || (j + 5 <= |s| && s[j + 3] == 'd' && s[j + 4] == '%')))
  }

  /** `re.search(r'\d{4}', s)` from position `from` on: where the leftmost match starts. */
  function FindYearFrom(s: string, from: nat): (r: Option<nat>)
    requires from <= |s|
    ensures r.Some? ==> from <= r.value && YearAt(s, r.value)
    ensures forall j :: from <= j && (r.None? || j < r.value) ==> !YearAt(s, j)
    decreases |s| - from
  {
    if from + 4 > |s| then None
    else if YearAt(s, from) then Some(from)
    else FindYearFrom(s, from + 1)
  }

  function FindYear(s: string): (r: Option<nat>)
    ensures r.Some? ==> YearAt(s, r.value)
    ensures forall j :: 0 <= j && (r.None? || j < r.value) ==> !YearAt(s, j)
  {
    FindYearFrom(s, 0)
  }

  function FindMarkerFrom(s: string, from: nat): (r: Option<nat>)
    requires from <= |s|
    ensures r.Some? ==> from <= r.value && MarkerAt(s, r.value)
    ensures forall j :: from <= j && (r.None? || j < r.value) ==> !MarkerAt(s, j)
    decreases |s| - from
  {
    if from + 3 > |s| then None
    else if MarkerAt(s, from) then Some(from)
    else FindMarkerFrom(s, from + 1)
  }

  /** `re.search(r'\%\d{2,3}|\\d{2,3}%', s)`: where the leftmost match starts. */
  function FindMarker(s: string): (r: Option<nat>)
    ensures r.Some? ==> MarkerAt(s, r.value) && r.value < |s|
    ensures forall j :: 0 <= j && (r.None? || j < r.value) ==> !MarkerAt(s, j)
  {
    FindMarkerFrom(s, 0)
  }

  /** The pair `(program_name, iteration)`; either may be `None`. */
  datatype Label = Label(name: Option<string>, iteration: Option<string>)

  /** `get_iteration_from_program_name`. The iteration is the stripped rest of
      the label from the first four-digit run on; the name is the stripped label
      up to the first language marker, searched for in the part before the
      iteration (or in the whole label when there is no iteration), and
      otherwise the stripped part before the iteration. The marker position
      found in the stripped part is used to cut the unstripped label. */
  function IterationFromProgramName(s: string): (r: Label)
    ensures r.iteration.Some? ==> r.name.Some?
  {
    var year := FindYear(s);
    var iteration := if year.Some? then Some(Strip(s[year.value..])) else None;
    var beforeIteration := if iteration.Some? then Some(Strip(s[..year.value])) else None;
    var marker := FindMarker(if beforeIteration.Some? then beforeIteration.value else s);
    var name :=
      if marker.Some? then Some(Strip(s[..marker.value]))
      else if beforeIteration.Some? then beforeIteration
      else None;
    Label(name, iteration)
  }

  /** The decision after the label is split: both parts missing means a
      single-iteration program filed under the default iteration name, a
      missing name skips the program (`None`), a missing iteration falls back
      to the default iteration name. */
  function ResolveLabel(s: string): (r: Option<(string, string)>)
  {
    var l := IterationFromProgramName(s);
    if l.name.None? && l.iteration.None? then Some((s, DEFAULT_ITERATION_NAME))
    else if l.name.None? then None
    else if l.iteration.None? then Some((l.name.value, DEFAULT_ITERATION_NAME))
    else Some((l.name.value, l.iteration.value))
  }

  /** `f"{name} ({type})".replace("( (", "(")`. */
  function ProgramKey(name: string, programType: string): string {
    ReplaceAll(name + " (" + programType + ")", "( (", "(")
  }

  // ---------------------------------------------------------------- lemmas

  /** With a year in the label, the iteration is the stripped suffix from the
      first four-digit run on, so it is non-empty and starts with that digit. */
  lemma IterationStartsWithYear(s: string)
    requires FindYear(s).Some?
    ensures var j := FindYear(s).value;
      var it := IterationFromProgramName(s).iteration;
      it == Some(Strip(s[j..])) && it.value != [] && IsDigit(it.value[0]) && it.value[0] == s[j]
      && forall k :: 0 <= k < j ==> !YearAt(s, k)
  {
    var j := FindYear(s).value;
    assert s[j..][0] == s[j];
    StripKeepsFirst(Python, s[j..]);
  }

  /** The skip branch is unreachable: every label resolves to a name and an
      iteration. */
  lemma ResolveTotal(s: string)
    ensures ResolveLabel(s).Some?
  {
    var l := IterationFromProgramName(s);
    assert l.iteration.Some? ==> l.name.Some?;
  }

  /** A label with neither a year nor a language marker is filed as it is,
      under the default iteration name. */
  lemma NoYearNoMarker(s: string)
    requires forall j :: !YearAt(s, j)
    requires forall j :: !MarkerAt(s, j)
    ensures ResolveLabel(s) == Some((s, DEFAULT_ITERATION_NAME))
  {
    assert FindYear(s).None?;
    assert FindMarker(s).None?;
  }

  /** A label with a language marker but no year is cut at the marker and
      filed under the default iteration name. */
  lemma MarkerNoYear(s: string)
    requires forall j :: !YearAt(s, j)
    requires FindMarker(s).Some?
    ensures ResolveLabel(s) == Some((Strip(s[..FindMarker(s).value]), DEFAULT_ITERATION_NAME))
  {
    assert FindYear(s).None?;
  }

  /** For a label without leading whitespace (labels are stripped when they
      are read), the name is cut from the part before the iteration, as the
      code intends: slicing the unstripped label with a position found in the
      stripped part gives the same prefix. */
  lemma NameFromPartBeforeIteration(s: string)
    requires s == [] || !IsPySpace(s[0])
    requires FindYear(s).Some?
    ensures var j := FindYear(s).value;
      var before := Strip(s[..j]);
      IterationFromProgramName(s).name
        == if FindMarker(before).Some? then Some(Strip(before[..FindMarker(before).value])) else Some(before)
  {
    var j := FindYear(s).value;
    var before := Strip(s[..j]);
    if j > 0 {
      assert s[..j][0] == s[0];
      assert LStrip(Python, s[..j]) == s[..j];
    } else {
      assert s[..j] == [];
    }
    assert before == s[..|before|];
    if FindMarker(before).Some? {
      var m := FindMarker(before).value;
      assert s[..m] == before[..m];
    }
  }

  // ---------------------------------------------------------------- the documented example

  const EXAMPLE_HEAD: string := "Fizik Mühendisliği Lisans Programı "
  const EXAMPLE_NAME: string := EXAMPLE_HEAD + "("
  const EXAMPLE_LANGUAGE: string := " İngilizce) "
  const EXAMPLE_ITERATION: string := "2010-2011 / Güz Dönemi Sonrası"
  /** The label of the example in the source's comment. */
  const EXAMPLE_LABEL: string := EXAMPLE_NAME + "%100" + EXAMPLE_LANGUAGE + EXAMPLE_ITERATION
  const EXAMPLE_TYPE: string := "100% İngilizce Program"

  predicate DigitFree(s: string) {
    forall i :: 0 <= i < |s| ==> !IsDigit(s[i])
  }

  lemma ExampleNameParts()
    ensures |EXAMPLE_NAME| == 36 && DigitFree(EXAMPLE_NAME) && EXAMPLE_NAME[0] == 'F'
    ensures EXAMPLE_NAME[34..] == " ("
  {
  }

  lemma ExampleNameSymbols()
    ensures '%' !in EXAMPLE_NAME && '\\' !in EXAMPLE_NAME
  {
  }

  lemma ExampleHeadSymbols()
    ensures '(' !in EXAMPLE_HEAD && '(' !in EXAMPLE_TYPE
  {
  }

  lemma ExampleLanguageParts()
    ensures |EXAMPLE_LANGUAGE| == 12 && DigitFree(EXAMPLE_LANGUAGE) && EXAMPLE_LANGUAGE[0] == ' '
    ensures EXAMPLE_LANGUAGE[11] == ' ' && EXAMPLE_LANGUAGE[10] == ')'
  {
  }

  lemma ExampleIterationParts()
    ensures EXAMPLE_ITERATION[..4] == "2010" && EXAMPLE_ITERATION[0] == '2'
    ensures EXAMPLE_ITERATION[|EXAMPLE_ITERATION| - 1] == 'ı'
  {
  }

  lemma ExampleParts()
    ensures |EXAMPLE_NAME| == 36 && DigitFree(EXAMPLE_NAME) && EXAMPLE_NAME[0] == 'F'
    ensures EXAMPLE_NAME[34..] == " ("
    ensures '%' !in EXAMPLE_NAME && '\\' !in EXAMPLE_NAME && '(' !in EXAMPLE_HEAD
    ensures |EXAMPLE_LANGUAGE| == 12 && DigitFree(EXAMPLE_LANGUAGE) && EXAMPLE_LANGUAGE[0] == ' '
    ensures EXAMPLE_LANGUAGE[11] == ' ' && EXAMPLE_LANGUAGE[10] == ')'
    ensures EXAMPLE_ITERATION[..4] == "2010" && EXAMPLE_ITERATION[0] == '2'
    ensures EXAMPLE_ITERATION[|EXAMPLE_ITERATION| - 1] == 'ı'
  {
    ExampleNameParts();
    ExampleNameSymbols();
    ExampleHeadSymbols();
    ExampleLanguageParts();
    ExampleIterationParts();
  }

  lemma ExampleYear()
    ensures FindYear(EXAMPLE_LABEL) == Some(52)
  {
    ExampleParts();
    var it := EXAMPLE_LABEL[52..];
    assert it == EXAMPLE_ITERATION;
    assert it[..4] == "2010";
    assert YearAt(EXAMPLE_LABEL, 52) by {
      assert EXAMPLE_LABEL[52] == it[0] && EXAMPLE_LABEL[53] == it[1];
      assert EXAMPLE_LABEL[54] == it[2] && EXAMPLE_LABEL[55] == it[3];
    }
    forall j | 0 <= j < 52 ensures !YearAt(EXAMPLE_LABEL, j) {
      if j < 36 {
        assert EXAMPLE_LABEL[j] == EXAMPLE_NAME[j];
      } else if j == 36 {
        assert EXAMPLE_LABEL[36] == '%';
      } else if j < 40 {
        assert EXAMPLE_LABEL[40] == EXAMPLE_LANGUAGE[0];
      } else {
        assert EXAMPLE_LABEL[j] == EXAMPLE_LANGUAGE[j - 40];
      }
    }
  }

  lemma ExampleBeforeIteration()
    ensures Strip(EXAMPLE_LABEL[..52]) == EXAMPLE_NAME + "%100" + EXAMPLE_LANGUAGE[..11]
    ensures FindMarker(EXAMPLE_NAME + "%100" + EXAMPLE_LANGUAGE[..11]) == Some(36)
  {
    ExampleStripBefore();
    ExampleMarker();
  }

  lemma ExampleStripBefore()
    ensures Strip(EXAMPLE_LABEL[..52]) == EXAMPLE_NAME + "%100" + EXAMPLE_LANGUAGE[..11]
  {
    ExampleNameParts();
    ExampleLanguageParts();
    var before := EXAMPLE_NAME + "%100" + EXAMPLE_LANGUAGE[..11];
    assert EXAMPLE_LABEL[..52] == before + " ";
    StripFixed(Python, before);
    StripAppendSpace(before, " ");
  }

  lemma ExampleMarker()
    ensures FindMarker(EXAMPLE_NAME + "%100" + EXAMPLE_LANGUAGE[..11]) == Some(36)
  {
    ExampleNameParts();
    ExampleNameSymbols();
    var before := EXAMPLE_NAME + "%100" + EXAMPLE_LANGUAGE[..11];
    assert MarkerAt(before, 36);
    forall j | 0 <= j < 36 ensures !MarkerAt(before, j) {
      assert before[j] == EXAMPLE_NAME[j];
    }
  }

  lemma ExampleResolve()
    ensures ResolveLabel(EXAMPLE_LABEL) == Some((EXAMPLE_NAME, EXAMPLE_ITERATION))
  {
    var s := EXAMPLE_LABEL;
    ExampleParts();
    ExampleYear();
    ExampleBeforeIteration();
    var before := EXAMPLE_NAME + "%100" + EXAMPLE_LANGUAGE[..11];
    assert s[..36] == EXAMPLE_NAME;
    assert s[52..] == EXAMPLE_ITERATION;
    StripFixed(Python, EXAMPLE_NAME);
    StripFixed(Python, EXAMPLE_ITERATION);
    assert Strip(s[52..]) == EXAMPLE_ITERATION;
    assert Strip(s[..52]) == before;
    assert Strip(s[..36]) == EXAMPLE_NAME;
    assert IterationFromProgramName(s) == Label(Some(EXAMPLE_NAME), Some(EXAMPLE_ITERATION));
  }

  lemma ExampleKey()
    ensures ProgramKey(EXAMPLE_NAME, EXAMPLE_TYPE) == EXAMPLE_HEAD + "(" + EXAMPLE_TYPE + ")"
  {
    ExampleHeadSymbols();
    var rest := EXAMPLE_TYPE + ")";
    assert EXAMPLE_NAME + " (" + EXAMPLE_TYPE + ")" == EXAMPLE_HEAD + "( (" + rest;
    assert '(' !in rest;
    ReplaceOnlyAt(EXAMPLE_HEAD, "( (", "(", rest);
  }

  lemma ExampleKeyText()
    ensures EXAMPLE_HEAD + "(" + EXAMPLE_TYPE + ")" == "Fizik Mühendisliği Lisans Programı (100% İngilizce Program)"
  {
    assert EXAMPLE_HEAD + "(" == "Fizik Mühendisliği Lisans Programı (";
    assert EXAMPLE_TYPE + ")" == "100% İngilizce Program)";
    assert EXAMPLE_HEAD + "(" + EXAMPLE_TYPE + ")" == (EXAMPLE_HEAD + "(") + (EXAMPLE_TYPE + ")");
  }

  /** The example of the source's comment: the label splits into the name up to
      the language marker and the year range, and the key collapses "( (". */
  lemma FizikExample()
    ensures ResolveLabel(EXAMPLE_LABEL) == Some((EXAMPLE_NAME, EXAMPLE_ITERATION))
    ensures ProgramKey(EXAMPLE_NAME, EXAMPLE_TYPE) == "Fizik Mühendisliği Lisans Programı (100% İngilizce Program)"
  {
    ExampleResolve();
    ExampleKey();
    ExampleKeyText();
  }
}
