/** Option and Result: the absent value (Python `None`, JavaScript `null`)
    and the raised exception of the modelled code, as values; with the loops
    over lists of them that recur in the scrapers. */
module Wrappers {

  datatype Option<+T> = None | Some(value: T) {
    function GetOr(default: T): T {
      match this
      case Some(v) => v
      case None => default
    }
  }

  /** `Err` carries a short name of the exception the source would raise. */
  datatype Result<+T> = Ok(value: T) | Err(error: string)

  /** The values of a list of results, or the first error among them. */
  function AllOk<T>(xs: seq<Result<T>>): (r: Result<seq<T>>)
    ensures r.Ok? <==> forall k :: 0 <= k < |xs| ==> xs[k].Ok?
    ensures r.Ok? ==> (|r.value| == |xs| && forall k :: 0 <= k < |xs| ==> xs[k] == Ok(r.value[k]))
  {
    if xs == [] then Ok([])
    else
      var init := xs[..|xs| - 1];
      match AllOk(init)
      case Err(e) => Err(e)
      case Ok(vs) =>
        match xs[|xs| - 1]
        case Err(e) => Err(e)
        case Ok(v) => Ok(vs + [v])
  }

  /** Appending one result to a list of results. */
  lemma AllOkAppend<T>(xs: seq<Result<T>>, x: Result<T>)
    requires AllOk(xs).Ok? && x.Ok?
    ensures AllOk(xs + [x]) == Ok(AllOk(xs).value + [x.value])
  {
    assert (xs + [x])[..|xs|] == xs;
  }

  /** A list whose every result is `Ok` gives exactly its values. */
  lemma AllOkValues<T>(xs: seq<Result<T>>, vs: seq<T>)
    requires |vs| == |xs| && forall k :: 0 <= k < |xs| ==> xs[k] == Ok(vs[k])
    ensures AllOk(xs) == Ok(vs)
  {
    assert AllOk(xs).Ok?;
    assert AllOk(xs).value == vs;
  }

  /** The error of a list of results is that of its first failing element,
      as a loop that raises on the first failure reports it. */
  lemma {:induction false} AllOkFirstErr<T>(xs: seq<Result<T>>, i: nat)
    requires i < |xs| && xs[i].Err?
    requires forall k :: 0 <= k < i ==> xs[k].Ok?
    ensures AllOk(xs) == Err(xs[i].error)
    decreases |xs|
  {
    var init := xs[..|xs| - 1];
    if i < |xs| - 1 {
      assert init[i] == xs[i];
      assert forall k :: 0 <= k < i ==> init[k] == xs[k];
      AllOkFirstErr(init, i);
    } else {
      assert forall k :: 0 <= k < |init| ==> init[k] == xs[k];
    }
  }

  /** The present values of a list of options, in order. */
  function Somes<T>(xs: seq<Option<T>>): (r: seq<T>)
    ensures |r| <= |xs|
  {
    if xs == [] then []
    else
      var init := Somes(xs[..|xs| - 1]);
      match xs[|xs| - 1]
      case None => init
      case Some(x) => init + [x]
  }

  /** A prefix one longer has the present value of its last option added. */
  lemma SomesPrefix<T>(xs: seq<Option<T>>, i: nat)
    requires i < |xs|
    ensures Somes(xs[..i + 1]) == Somes(xs[..i]) + match xs[i] { case None => [] case Some(x) => [x] }
  {
    assert xs[..i + 1][..i] == xs[..i];
  }

  /** With every option present, the values are the options' values, in order. */
  lemma {:induction false} SomesAll<T>(xs: seq<Option<T>>)
    requires forall k :: 0 <= k < |xs| ==> xs[k].Some?
    ensures |Somes(xs)| == |xs| && forall k :: 0 <= k < |xs| ==> Somes(xs)[k] == xs[k].value
  {
    if xs != [] {
      var init := xs[..|xs| - 1];
      assert forall k :: 0 <= k < |init| ==> init[k] == xs[k];
      SomesAll(init);
    }
  }

  /** A value is present in the list exactly when some option holds it. */
  lemma {:induction false} SomesMember<T>(xs: seq<Option<T>>, x: T)
    ensures x in Somes(xs) <==> exists k :: 0 <= k < |xs| && xs[k] == Some(x)
  {
    if xs != [] {
      var init := xs[..|xs| - 1];
      SomesMember(init, x);
      if exists k :: 0 <= k < |xs| && xs[k] == Some(x) {
        var k :| 0 <= k < |xs| && xs[k] == Some(x);
        if k < |init| {
          assert init[k] == xs[k];
        }
      }
      if exists k :: 0 <= k < |init| && init[k] == Some(x) {
        var k :| 0 <= k < |init| && init[k] == Some(x);
        assert xs[k] == init[k];
      }
    }
  }

  /** A prefix one longer is the prefix and the next item. */
  lemma PrefixSnoc<T>(xs: seq<T>, i: nat)
    requires i < |xs|
    ensures xs[..i + 1] == xs[..i] + [xs[i]]
  {
  }

  lemma PrefixStep<T>(xs: seq<T>, i: nat)
    requires i < |xs|
    ensures xs[..i + 1][..i] == xs[..i] && xs[..i + 1][i] == xs[i]
  {
  }
}
