/** The dropdown handling of the curriculum scraper: reading a dropdown's
    options, re-reading it until no option is stale, picking the link out of
    an option, and the allow-lists of program and plan types. The browser is
    replaced by what it returns: a read yields the options found, or nothing
    when they did not appear in time. */
module Dropdown {
  import opened Wrappers
  import opened Text

  /** A dropdown option element: its inner HTML, its `value` attribute and
      whether the page has replaced it since it was read. */
  datatype Element = Element(innerHtml: string, value: string, stale: bool)

  /** `get_dropdown_options`. `found` is whether the options appeared before
      the timeout; `remove_first` drops a leading placeholder option. No option
      left is reported as `None`. */
  function GetDropdownOptions(found: bool, options: seq<Element>, removeFirst: bool): (r: Option<seq<Element>>)
    ensures r.None? <==> !found || |options| <= (if removeFirst then 1 else 0)
    ensures r.Some? ==> r.value != []
    ensures r.Some? && removeFirst ==> options == [options[0]] + r.value
    ensures r.Some? && !removeFirst ==> r.value == options
  {
    if !found then None
    else if removeFirst then (if |options| > 1 then Some(options[1..]) else None)
    else if |options| > 0 then Some(options) else None
  }

  /** A read found options and none of them is stale. */
  predicate Usable(read: Option<seq<Element>>) {
    read.Some? && forall j :: 0 <= j < |read.value| ==> !read.value[j].stale
  }

  /** The first of the first `n` readings that is usable. */
  function FirstUsableRead(readings: seq<Option<seq<Element>>>, n: nat): (r: Option<nat>)
    requires n <= |readings|
    ensures r.Some? ==> r.value < n && Usable(readings[r.value])
    ensures forall k :: 0 <= k < n && (r.None? || k < r.value) ==> !Usable(readings[k])
  {
    if n == 0 then None
    else if FirstUsableRead(readings, n - 1).Some? then FirstUsableRead(readings, n - 1)
    else if Usable(readings[n - 1]) then Some(n - 1)
    else None
  }

  /** `create_dropdown_and_get_elements`: click, read, and return the first
      usable read; `readings[k]` is what the `k`-th attempt reads. After
      `max_retries` failed attempts the result is `None`; with no attempt at
      all the result variable is never bound and Python raises. */
  method CreateDropdownAndGetElements(readings: seq<Option<seq<Element>>>, maxRetries: int)
    returns (r: Result<Option<seq<Element>>>, attempts: nat)
    requires maxRetries <= |readings|
    ensures attempts <= if maxRetries < 0 then 0 else maxRetries
    ensures maxRetries <= 0 ==> r == Err("UnboundLocalError")
    ensures maxRetries > 0 && FirstUsableRead(readings, maxRetries).Some? ==>
      r == Ok(readings[FirstUsableRead(readings, maxRetries).value]) && attempts == FirstUsableRead(readings, maxRetries).value + 1
    ensures maxRetries > 0 && FirstUsableRead(readings, maxRetries).None? ==> r == Ok(None) && attempts == maxRetries
    ensures r.Ok? && r.value.Some? ==> forall j :: 0 <= j < |r.value.value| ==> !r.value.value[j].stale
  {
    var dropdownVals: Option<Option<seq<Element>>> := None;  // None: the name is unbound
    var i := 0;
    while i < maxRetries
      invariant 0 <= i && (maxRetries > 0 ==> i <= maxRetries) && (maxRetries <= 0 ==> i == 0)
      invariant FirstUsableRead(readings, i).None?
      invariant dropdownVals == if i == 0 then None else Some(None)
    {
      var read := readings[i];
      if Usable(read) {
        return Ok(read), i + 1;
      }
      dropdownVals := Some(None);
      i := i + 1;
    }
    match dropdownVals
    case None =>
      r, attempts := Err("UnboundLocalError"), 0;
    case Some(v) =>
      r, attempts := Ok(v), i;
  }

  /** The link inside a dropdown option. */
  datatype Link = Link(role: string, innerHtml: string)

  /** `get_dropdown_option_if_available`: the option's first link, unless the
      option has no link, the link is not an option, or it is the
      "Seçiniz" ("choose") placeholder. */
  function GetDropdownOptionIfAvailable(links: seq<Link>): (r: Option<Link>)
    ensures r.None? <==> links == [] || links[0].role != "option" || Contains(links[0].innerHtml, "Seçiniz")
    ensures r.Some? ==> r.value == links[0]
  {
    if |links| <= 0 then None
    else if links[0].role != "option" then None
    else if Contains(links[0].innerHtml, "Seçiniz") then None
    else Some(links[0])
  }

  /** The plan types scraped: undergraduate and the dual-degree programme. */
  const ALLOWED_PLAN_TYPE_VALS: seq<string> := ["lisans", "uolp"]

  /** The program types scraped, with the percent sign on the side the site puts it. */
  const ALLOWED_PROGRAM_TYPES: seq<string> := [
    "UOLP",
    "100% English Program", "30% English Program", "100% Turkish Program",
    "100% İngilizce Program", "30% İngilizce Program", "100% Türkçe Program"
  ]

  /** The names a loop with `if name not in allowed: continue` goes on with, in order. */
  function KeepAllowed(names: seq<string>, allowed: seq<string>): (r: seq<string>)
    ensures forall x :: x in r <==> x in names && x in allowed
    ensures |r| <= |names|
  {
    if names == [] then []
    else if names[0] in allowed then [names[0]] + KeepAllowed(names[1..], allowed)
    else KeepAllowed(names[1..], allowed)
  }

  /** The loop filters in order: the names kept from two lists one after the
      other are those kept from the first, then those kept from the second,
      and one name is kept, once, exactly when it is allowed. Together these
      fix the result for every list, duplicates included. */
  lemma {:induction false} KeepAllowedAppend(a: seq<string>, b: seq<string>, allowed: seq<string>)
    ensures KeepAllowed(a + b, allowed) == KeepAllowed(a, allowed) + KeepAllowed(b, allowed)
    ensures KeepAllowed([], allowed) == []
    ensures forall x :: KeepAllowed([x], allowed) == if x in allowed then [x] else []
  {
    if a == [] {
      assert a + b == b;
    } else {
      assert (a + b)[0] == a[0];
      assert (a + b)[1..] == a[1..] + b;
      KeepAllowedAppend(a[1..], b, allowed);
    }
    forall x ensures KeepAllowed([x], allowed) == if x in allowed then [x] else [] {
      assert [x][1..] == [];
    }
  }
}
