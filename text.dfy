/** The string primitives the modelled Python and JavaScript code uses, with
    the semantics of those languages written out: substring search, `split`
    on a separator, `join`, Python's replace-all and JavaScript's
    replace-first, and whitespace stripping. Strings are `seq<char>`. */
module Text {
  import opened Wrappers

  /** Whose notion of whitespace a strip uses. */
  datatype Runtime = Python | JavaScript

  /** `str.isspace()` of Python 3, the set `str.strip()` removes. */
  predicate IsPySpace(c: char) {
    c == ' ' || ('\t' <= c <= '\r') || ('\U{1c}' <= c <= '\U{1f}') || c == '\U{85}' || c == '\U{a0}'
    || c == '\U{1680}' || ('\U{2000}' <= c <= '\U{200a}') || c == '\U{2028}' || c == '\U{2029}'
    || c == '\U{202f}' || c == '\U{205f}' || c == '\U{3000}'
  }

  /** WhiteSpace and LineTerminator of ECMAScript, the set `String.prototype.trim` removes. */
  predicate IsJsSpace(c: char) {
    c == ' ' || ('\t' <= c <= '\r') || c == '\U{a0}' || c == '\U{1680}' || ('\U{2000}' <= c <= '\U{200a}')
    || c == '\U{2028}' || c == '\U{2029}' || c == '\U{202f}' || c == '\U{205f}' || c == '\U{3000}'
    || c == '\U{feff}'
  }

  predicate IsSpace(rt: Runtime, c: char) {
    match rt
    case Python => IsPySpace(c)
    case JavaScript => IsJsSpace(c)
  }

  predicate IsDigit(c: char) { '0' <= c <= '9' }

  // ---------------------------------------------------------------- search

  /** `p` occurs in `s` at position `j`. */
  predicate MatchAt(s: string, p: string, j: int) {
    0 <= j && j + |p| <= |s| && s[j..j + |p|] == p
  }

  lemma MatchShift(s: string, p: string)
    requires |s| >= 1
    ensures forall j {:trigger MatchAt(s, p, j)} :: 1 <= j ==> (MatchAt(s, p, j) <==> MatchAt(s[1..], p, j - 1))
  {
    forall j | 1 <= j ensures MatchAt(s, p, j) <==> MatchAt(s[1..], p, j - 1) {
      if j + |p| <= |s| {
        assert s[1..][j - 1..j - 1 + |p|] == s[j..j + |p|];
      }
    }
  }

  /** Index of the leftmost occurrence of `p` in `s` (Python `str.find`, JavaScript `indexOf`). */
  function IndexOf(s: string, p: string): (r: Option<nat>)
    ensures r.Some? ==> MatchAt(s, p, r.value)
    ensures r.Some? ==> forall j :: 0 <= j < r.value ==> !MatchAt(s, p, j)
    ensures r.None? ==> forall j :: !MatchAt(s, p, j)
    decreases |s|
  {
    if |s| < |p| then None
    else if s[..|p|] == p then Some(0)
    else
      var r := IndexOf(s[1..], p);
      MatchShift(s, p);
      if r.None? then None else Some(r.value + 1)
  }

  /** Python `p in s`, JavaScript `s.includes(p)`. */
  predicate Contains(s: string, p: string) {
    IndexOf(s, p).Some?
  }

  predicate StartsWith(s: string, p: string) {
    |p| <= |s| && s[..|p|] == p
  }

  /** Index of the first `c` in `s`. */
  function CharIndex(s: string, c: char): (r: Option<nat>)
    ensures r.None? <==> c !in s
    ensures r.Some? ==> r.value < |s| && s[r.value] == c && c !in s[..r.value]
  {
    if s == [] then None
    else if s[0] == c then Some(0)
    else
      var r := CharIndex(s[1..], c);
      assert r.Some? ==> s[..r.value + 1] == [s[0]] + s[1..][..r.value];
      if r.None? then None else Some(r.value + 1)
  }

  /** Searching for a one-character pattern is searching for the character. */
  lemma {:induction false} IndexOfChar(s: string, c: char)
    ensures IndexOf(s, [c]) == CharIndex(s, c)
  {
    if s != [] {
      assert s[..1] == [s[0]];
      IndexOfChar(s[1..], c);
    }
  }

  lemma ContainsChar(s: string, c: char)
    ensures Contains(s, [c]) <==> c in s
  {
    IndexOfChar(s, c);
  }

  /** If `s` has no `c`, no pattern starting with `c` occurs in it. */
  lemma NotContainsStartingWith(s: string, p: string)
    requires p != [] && p[0] !in s
    ensures !Contains(s, p)
  {
    forall j ensures !MatchAt(s, p, j) {
      if 0 <= j && j + |p| <= |s| {
        assert s[j..j + |p|][0] == s[j];
      }
    }
  }

  /** A pattern whose first character `a` lacks is found first where `b` starts with it. */
  lemma IndexOfAfterFree(a: string, b: string, p: string)
    requires p != [] && p[0] !in a && StartsWith(b, p)
    ensures IndexOf(a + b, p) == Some(|a|)
  {
    var s := a + b;
    assert s[|a|..|a| + |p|] == b[..|p|];
    assert MatchAt(s, p, |a|);
    forall j | 0 <= j < |a| ensures !MatchAt(s, p, j) {
      assert s[j] == a[j];
      if j + |p| <= |s| {
        assert s[j..j + |p|][0] == s[j];
      }
    }
    var r := IndexOf(s, p);
    assert r.Some?;
    assert !(r.value < |a|);
    assert !(r.value > |a|);
  }

  /** A pattern whose first character occurs nowhere else is replaced once. */
  lemma ReplaceOnlyAt(a: string, pat: string, rep: string, c: string)
    requires pat != [] && pat[0] !in a && pat[0] !in c
    ensures ReplaceAll(a + pat + c, pat, rep) == a + rep + c
  {
    var s := a + pat + c;
    assert s == a + (pat + c);
    assert (pat + c)[..|pat|] == pat;
    IndexOfAfterFree(a, pat + c, pat);
    assert s[..|a|] == a && s[|a| + |pat|..] == c;
    NotContainsStartingWith(c, pat);
    assert ReplaceAll(c, pat, rep) == c;
  }

  /** The first occurrence of `b` in `a + [c] + b`, when `a` does not hold
      `b` and `b` does not hold `c`, is the final `b`. */
  lemma IndexOfAfterSeparator(a: string, c: char, b: string)
    requires b != [] && c !in b && !Contains(a, b)
    ensures IndexOf(a + [c] + b, b) == Some(|a| + 1)
  {
    var s := a + [c] + b;
    assert s[|a| + 1..] == b;
    assert MatchAt(s, b, |a| + 1);
    forall j | 0 <= j <= |a| ensures !MatchAt(s, b, j) {
      if j + |b| <= |a| {
        assert s[j..j + |b|] == a[j..j + |b|];
        assert !MatchAt(a, b, j);
      } else if j + |b| <= |s| {
        assert s[j..j + |b|][|a| - j] == c;
      }
    }
    var r := IndexOf(s, b);
    assert r.Some?;
    assert !(r.value < |a| + 1);
  }

  /** Finding a character in `a + b` where `a` has none of it. */
  lemma {:induction false} CharIndexAfter(a: string, b: string, c: char)
    requires c !in a
    ensures CharIndex(a + b, c) == if c in b then Some(|a| + CharIndex(b, c).value) else None
  {
    if a != [] {
      assert (a + b)[1..] == a[1..] + b;
      CharIndexAfter(a[1..], b, c);
    } else {
      assert a + b == b;
    }
  }

  // ---------------------------------------------------------------- split and join

  /** `s.split(sep)` in Python and JavaScript: the pieces between leftmost,
      non-overlapping occurrences of `sep`; always at least one piece. */
  function Split(s: string, sep: string): (r: seq<string>)
    requires sep != []
    ensures |r| >= 1
    decreases |s|
  {
    match IndexOf(s, sep)
    case None => [s]
    case Some(i) => [s[..i]] + Split(s[i + |sep|..], sep)
  }

  /** `sep.join(xs)`. */
  function Join(xs: seq<string>, sep: string): string
  {
    if xs == [] then ""
    else if |xs| == 1 then xs[0]
    else xs[0] + sep + Join(xs[1..], sep)
  }

  lemma {:induction false} JoinAppend(xs: seq<string>, y: string, sep: string)
    ensures Join(xs + [y], sep) == if xs == [] then y else Join(xs, sep) + sep + y
  {
    if |xs| > 1 {
      assert (xs + [y])[1..] == xs[1..] + [y];
      JoinAppend(xs[1..], y, sep);
    }
  }

  /** Joining one more piece of a list. */
  lemma JoinStep(xs: seq<string>, k: nat, sep: string)
    requires k < |xs|
    ensures Join(xs[..k + 1], sep) == if k == 0 then xs[0] else Join(xs[..k], sep) + sep + xs[k]
  {
    assert xs[..k + 1] == xs[..k] + [xs[k]];
    JoinAppend(xs[..k], xs[k], sep);
  }

  /** Splitting on a one-character separator undoes joining on it, when no
      piece contains the separator. */
  lemma {:induction false} SplitJoin(xs: seq<string>, c: char)
    requires |xs| >= 1
    requires forall i :: 0 <= i < |xs| ==> c !in xs[i]
    ensures Split(Join(xs, [c]), [c]) == xs
  {
    if |xs| == 1 {
      IndexOfChar(xs[0], c);
    } else {
      var rest := Join(xs[1..], [c]);
      SplitAfterPiece(xs[0], rest, c);
      SplitJoin(xs[1..], c);
    }
  }

  /** Splitting `a + [c] + b` where `a` has no `c` cuts after `a`. */
  lemma SplitAfterPiece(a: string, b: string, c: char)
    requires c !in a
    ensures Split(a + [c] + b, [c]) == [a] + Split(b, [c])
  {
    var s := a + [c] + b;
    assert s == a + ([c] + b);
    CharIndexAfter(a, [c] + b, c);
    IndexOfChar(s, c);
    assert s[..|a|] == a;
    assert s[|a| + 1..] == b;
  }

  /** Joining on `sep` adds no character that is neither in a piece nor in `sep`. */
  lemma {:induction false} JoinChars(xs: seq<string>, sep: string, c: char)
    requires c !in sep
    requires forall i :: 0 <= i < |xs| ==> c !in xs[i]
    ensures c !in Join(xs, sep)
  {
    if |xs| > 1 {
      JoinChars(xs[1..], sep, c);
    }
  }

  /** The pieces of a split contain no separator character. */
  lemma {:induction false} SplitPieces(s: string, c: char)
    ensures forall i :: 0 <= i < |Split(s, [c])| ==> c !in Split(s, [c])[i]
    decreases |s|
  {
    IndexOfChar(s, c);
    match CharIndex(s, c)
    case None =>
    case Some(k) =>
      SplitPieces(s[k + 1..], c);
  }

  /** The first and last characters of a join are those of its first and last pieces. */
  lemma {:induction false} JoinFirstChar(xs: seq<string>, sep: string)
    requires |xs| >= 1 && xs[0] != []
    ensures Join(xs, sep) != [] && Join(xs, sep)[0] == xs[0][0]
  {
  }

  lemma {:induction false} JoinLastChar(xs: seq<string>, sep: string)
    requires |xs| >= 1 && xs[|xs| - 1] != []
    ensures Join(xs, sep) != [] && Join(xs, sep)[|Join(xs, sep)| - 1] == xs[|xs| - 1][|xs[|xs| - 1]| - 1]
  {
    if |xs| > 1 {
      JoinLastChar(xs[1..], sep);
    }
  }

  /** A string holding the separator character splits into at least two
      pieces, the first one the text before that character. */
  lemma SplitAtChar(s: string, c: char)
    requires c in s
    ensures |Split(s, [c])| >= 2 && Split(s, [c])[0] == s[..CharIndex(s, c).value]
  {
    IndexOfChar(s, c);
    var k := CharIndex(s, c).value;
    IndexOfChar(s[k + 1..], c);
    assert |Split(s[k + 1..], [c])| >= 1;
  }

  /** The last piece of a split is the text after the last separator. */
  lemma SplitLast(a: string, b: string, c: char)
    requires c !in b
    ensures var p := Split(a + [c] + b, [c]); p[|p| - 1] == b
  {
    SplitSnoc(a, b, c);
  }

  /** A separator and a piece free of it add that piece after the pieces
      of `a`. */
  lemma {:induction false} SplitSnoc(a: string, b: string, c: char)
    requires c !in b
    ensures Split(a + [c] + b, [c]) == Split(a, [c]) + [b]
    decreases |a|
  {
    if c !in a {
      IndexOfChar(a, c);
      IndexOfChar(b, c);
      SplitAfterPiece(a, b, c);
    } else {
      var k := CharIndex(a, c).value;
      var head, tail := a[..k], a[k + 1..];
      CutAtChar(a, c, k, b);
      SplitSnoc(tail, b, c);
      SplitSnocStep(head, tail, b, c);
    }
  }

  /** `a` cut around its character at `k`, and the same with `[c] + b`
      after it. */
  lemma CutAtChar(a: string, c: char, k: nat, b: string)
    requires k < |a| && a[k] == c
    ensures a == a[..k] + [c] + a[k + 1..]
    ensures a + [c] + b == a[..k] + [c] + (a[k + 1..] + [c] + b)
  {
    assert a == a[..k] + [c] + a[k + 1..];
  }

  /** The inductive step of `SplitSnoc`, for a head free of the separator. */
  lemma SplitSnocStep(head: string, tail: string, b: string, c: char)
    requires c !in head
    requires Split(tail + [c] + b, [c]) == Split(tail, [c]) + [b]
    ensures Split(head + [c] + (tail + [c] + b), [c]) == Split(head + [c] + tail, [c]) + [b]
  {
    SplitAfterPiece(head, tail + [c] + b, c);
    SplitAfterPiece(head, tail, c);
  }

  // ---------------------------------------------------------------- replace

  /** Python `s.replace(pat, rep)` and JavaScript `s.replaceAll(pat, rep)`
      for a non-empty `pat`: every leftmost, non-overlapping occurrence. */
  function ReplaceAll(s: string, pat: string, rep: string): string
    requires pat != []
    decreases |s|
  {
    match IndexOf(s, pat)
    case None => s
    case Some(i) => s[..i] + rep + ReplaceAll(s[i + |pat|..], pat, rep)
  }

  /** Python `s.replace("", rep)`: `rep` before every character and at the end. */
  function InsertEverywhere(s: string, rep: string): (r: string)
    ensures |r| == |s| + (|s| + 1) * |rep|
  {
    if s == [] then rep else rep + [s[0]] + InsertEverywhere(s[1..], rep)
  }

  /** Python `s.replace(pat, rep)` for any `pat`, the empty one included. */
  function PyReplace(s: string, pat: string, rep: string): string {
    if pat == [] then InsertEverywhere(s, rep) else ReplaceAll(s, pat, rep)
  }

  /** JavaScript `s.replace(pat, rep)` with a string pattern: the first occurrence only. */
  function ReplaceFirst(s: string, pat: string, rep: string): string {
    match IndexOf(s, pat)
    case None => s
    case Some(i) => s[..i] + rep + s[i + |pat|..]
  }

  /** Removing every occurrence of a character leaves none, and adds none. */
  lemma {:induction false} RemoveCharGone(s: string, c: char)
    ensures c !in ReplaceAll(s, [c], "")
    ensures forall d :: d in ReplaceAll(s, [c], "") ==> d in s
    decreases |s|
  {
    IndexOfChar(s, c);
    match CharIndex(s, c)
    case None =>
    case Some(i) =>
      RemoveCharGone(s[i + 1..], c);
  }

  /** Removing a character keeps every other character. */
  lemma {:induction false} RemoveCharKeeps(s: string, c: char, d: char)
    requires d in s && d != c
    ensures d in ReplaceAll(s, [c], "")
    decreases |s|
  {
    IndexOfChar(s, c);
    match CharIndex(s, c)
    case None =>
    case Some(i) =>
      var k :| 0 <= k < |s| && s[k] == d;
      if k < i {
        assert s[..i][k] == d;
      } else {
        assert s[i + 1..][k - i - 1] == d;
        RemoveCharKeeps(s[i + 1..], c, d);
      }
  }

  /** A pattern that does not occur leaves the text as it is. */
  lemma ReplaceAbsent(s: string, pat: string, rep: string)
    requires pat != [] && !Contains(s, pat)
    ensures ReplaceAll(s, pat, rep) == s && ReplaceFirst(s, pat, rep) == s
  {
  }

  /** Removing the one occurrence of a character deletes it in place. */
  lemma RemoveSingleChar(a: string, b: string, c: char)
    requires c !in a && c !in b
    ensures ReplaceAll(a + [c] + b, [c], "") == a + b
  {
    var s := a + [c] + b;
    assert s == a + ([c] + b);
    CharIndexAfter(a, [c] + b, c);
    IndexOfChar(s, c);
    assert IndexOf(s, [c]) == Some(|a|);
    assert s[..|a|] == a;
    assert s[|a| + 1..] == b;
    RemoveAbsentChar(b, c);
    assert ReplaceAll(s, [c], "") == a + "" + ReplaceAll(b, [c], "");
  }

  /** Removing a character that does not occur changes nothing. */
  lemma RemoveAbsentChar(s: string, c: char)
    requires c !in s
    ensures ReplaceAll(s, [c], "") == s && ReplaceFirst(s, [c], "") == s
  {
    IndexOfChar(s, c);
  }

  // ---------------------------------------------------------------- strip

  function LStrip(rt: Runtime, s: string): (r: string)
    ensures |r| <= |s| && r == s[|s| - |r|..]
    ensures r == [] || !IsSpace(rt, r[0])
    ensures forall i :: 0 <= i < |s| - |r| ==> IsSpace(rt, s[i])
  {
    if s != [] && IsSpace(rt, s[0]) then LStrip(rt, s[1..]) else s
  }

  function RStrip(rt: Runtime, s: string): (r: string)
    ensures |r| <= |s| && r == s[..|r|]
    ensures r == [] || !IsSpace(rt, r[|r| - 1])
    ensures forall i :: |r| <= i < |s| ==> IsSpace(rt, s[i])
  {
    if s != [] && IsSpace(rt, s[|s| - 1]) then RStrip(rt, s[..|s| - 1]) else s
  }

  /** Python `s.strip()`. */
  function Strip(s: string): string {
    RStrip(Python, LStrip(Python, s))
  }

  /** JavaScript `s.trim()`. */
  function Trim(s: string): string {
    RStrip(JavaScript, LStrip(JavaScript, s))
  }

  /** A stripped string has no whitespace at either end. */
  lemma StripEnds(rt: Runtime, s: string)
    ensures var r := RStrip(rt, LStrip(rt, s));
      r == [] || (!IsSpace(rt, r[0]) && !IsSpace(rt, r[|r| - 1]))
  {
    var l := LStrip(rt, s);
    var r := RStrip(rt, l);
    assert r != [] ==> r[0] == l[0];
  }

  /** A string with no whitespace at its ends is its own strip. */
  lemma StripFixed(rt: Runtime, s: string)
    requires s == [] || (!IsSpace(rt, s[0]) && !IsSpace(rt, s[|s| - 1]))
    ensures RStrip(rt, LStrip(rt, s)) == s
  {
  }

  /** Stripping is idempotent. */
  lemma StripIdempotent(rt: Runtime, s: string)
    ensures RStrip(rt, LStrip(rt, RStrip(rt, LStrip(rt, s)))) == RStrip(rt, LStrip(rt, s))
  {
    StripEnds(rt, s);
    StripFixed(rt, RStrip(rt, LStrip(rt, s)));
  }

  /** Stripping a string that starts with a non-space keeps that first character. */
  lemma StripKeepsFirst(rt: Runtime, s: string)
    requires s != [] && !IsSpace(rt, s[0])
    ensures var r := RStrip(rt, LStrip(rt, s)); r != [] && r[0] == s[0]
  {
    assert LStrip(rt, s) == s;
  }

  /** Trailing whitespace added to a stripped string is stripped again. */
  lemma StripAppendSpace(s: string, t: string)
    requires Strip(s) == s
    requires forall i :: 0 <= i < |t| ==> IsPySpace(t[i])
    ensures Strip(s + t) == s
  {
    StripEnds(Python, s);
    if s == [] {
      LStripAllSpace(t);
    } else {
      assert LStrip(Python, s + t) == s + t;
      RStripSpaceTail(s, t);
    }
  }

  /** A space added at the end does not change the stripped text. */
  lemma StripTrailingSpace(x: string)
    ensures Strip(x + " ") == Strip(x)
  {
    var l := LStrip(Python, x);
    if l == [] {
      assert forall i :: 0 <= i < |x + " "| ==> IsPySpace((x + " ")[i]);
      LStripAllSpace(x + " ");
    } else {
      LStripAppend(x, " ");
      assert (l + " ")[..|l|] == l;
    }
  }

  lemma {:induction false} LStripAppend(x: string, t: string)
    requires LStrip(Python, x) != []
    ensures LStrip(Python, x + t) == LStrip(Python, x) + t
  {
    assert (x + t)[0] == x[0];
    if IsSpace(Python, x[0]) {
      assert (x + t)[1..] == x[1..] + t;
      LStripAppend(x[1..], t);
    }
  }

  /** Left-stripping cuts at the first non-space character. */
  lemma {:induction false} LStripAt(s: string, m: nat)
    requires m < |s| && !IsPySpace(s[m])
    requires forall i :: 0 <= i < m ==> IsPySpace(s[i])
    ensures LStrip(Python, s) == s[m..]
  {
    if m > 0 {
      assert s[1..][m - 1] == s[m];
      LStripAt(s[1..], m - 1);
      assert s[1..][m - 1..] == s[m..];
    }
  }

  lemma {:induction false} LStripAllSpace(t: string)
    requires forall i :: 0 <= i < |t| ==> IsPySpace(t[i])
    ensures LStrip(Python, t) == [] && RStrip(Python, []) == []
  {
    if t != [] {
      LStripAllSpace(t[1..]);
    }
  }

  lemma {:induction false} RStripSpaceTail(s: string, t: string)
    requires s != [] && !IsPySpace(s[|s| - 1])
    requires forall i :: 0 <= i < |t| ==> IsPySpace(t[i])
    ensures RStrip(Python, s + t) == s
    decreases |t|
  {
    if t != [] {
      assert (s + t)[..|s + t| - 1] == s + t[..|t| - 1];
      RStripSpaceTail(s, t[..|t| - 1]);
    } else {
      assert s + t == s;
    }
  }

  // ---------------------------------------------------------------- lines

  /** The text of a sequence of lines, each ended by a newline (Python `writelines`
      of lines that carry their own `"\n"`). */
  function Unlines(ls: seq<string>): string {
    if ls == [] then "" else ls[0] + "\n" + Unlines(ls[1..])
  }

  /** Concatenation of a sequence of strings (Python `"".join`, `writelines`). */
  function Concat(ss: seq<string>): string {
    if ss == [] then "" else ss[0] + Concat(ss[1..])
  }

  lemma {:induction false} ConcatAppend(ss: seq<string>, t: string)
    ensures Concat(ss + [t]) == Concat(ss) + t
  {
    if ss != [] {
      assert (ss + [t])[1..] == ss[1..] + [t];
      ConcatAppend(ss[1..], t);
    }
  }

  lemma {:induction false} ConcatConcat(ss: seq<string>, ts: seq<string>)
    ensures Concat(ss + ts) == Concat(ss) + Concat(ts)
  {
    if ss != [] {
      assert (ss + ts)[1..] == ss[1..] + ts;
      ConcatConcat(ss[1..], ts);
    } else {
      assert ss + ts == ts;
    }
  }

  lemma {:induction false} UnlinesAppend(ls: seq<string>, ms: seq<string>)
    ensures Unlines(ls + ms) == Unlines(ls) + Unlines(ms)
  {
    if ls != [] {
      assert (ls + ms)[1..] == ls[1..] + ms;
      UnlinesAppend(ls[1..], ms);
    } else {
      assert ls + ms == ms;
    }
  }

  /** `n` empty lines: the text Python's `"\n" * n` writes. */
  function Blanks(n: nat): (r: seq<string>)
    ensures |r| == n && forall i :: 0 <= i < n ==> r[i] == ""
  {
    if n == 0 then [] else Blanks(n - 1) + [""]
  }

  function Newlines(n: nat): (r: string)
    ensures |r| == n && forall i :: 0 <= i < n ==> r[i] == '\n'
  {
    if n == 0 then "" else Newlines(n - 1) + "\n"
  }

  lemma {:induction false} UnlinesBlanks(n: nat)
    ensures Unlines(Blanks(n)) == Newlines(n)
  {
    if n > 0 {
      UnlinesBlanks(n - 1);
      UnlinesAppend(Blanks(n - 1), [""]);
    }
  }

  lemma {:induction false} UnlinesAsJoin(ls: seq<string>)
    ensures Unlines(ls) == Join(ls + [""], "\n")
  {
    if ls != [] {
      assert (ls + [""])[1..] == ls[1..] + [""];
      UnlinesAsJoin(ls[1..]);
    }
  }

  /** Splitting a text of newline-free lines on `"\n"` gives the lines back,
      followed by the empty piece after the final newline. */
  lemma SplitUnlines(ls: seq<string>)
    requires forall i :: 0 <= i < |ls| ==> '\n' !in ls[i]
    ensures Split(Unlines(ls), "\n") == ls + [""]
  {
    UnlinesAsJoin(ls);
    SplitJoin(ls + [""], '\n');
  }
}
