/**
  The filter dropdown of the UI package: its selection, the toggle `handleSelect` applies to
  it, the selection restored from local storage under "filter-dropdown-<id>" (or the first
  option by default), and the effect that persists and reports a non-empty selection.
  JSON text is abstract: `parse` and `stringify` are parameters (a None from `parse` is a
  thrown parse error).
*/
module FilterDropdown {
  import opened Wrappers

  /** A parsed JSON value, as far as the restoring code inspects it. */
  datatype Json = JString(s: string) | JNumber(n: int) | JBool(b: bool) | JNull | JArray(items: seq<Json>) | JObject

  /** `prev.filter((f) => f !== option)`. */
  function Without(prev: seq<string>, option: string): (r: seq<string>)
    ensures option !in r && |r| <= |prev|
  {
    if prev == [] then []
    else (if prev[0] == option then [] else [prev[0]]) + Without(prev[1..], option)
  }

  /** The updater of `handleSelect(option)`. */
  function HandleSelect(prev: seq<string>, option: string, multiple: bool): seq<string> {
    if !multiple then [option]
    else if option in prev then Without(prev, option)
    else prev + [option]
  }

  /** Filtering distributes over concatenation, so what survives keeps its relative order. */
  lemma {:induction false} WithoutConcat(a: seq<string>, b: seq<string>, option: string)
    ensures Without(a + b, option) == Without(a, option) + Without(b, option)
    decreases |a|
  {
    if a != [] {
      assert (a + b)[1..] == a[1..] + b;
      WithoutConcat(a[1..], b, option);
    } else {
      assert a + b == b;
    }
  }

  /** Every other option keeps each of its occurrences, and nothing new appears. */
  lemma {:induction false} WithoutKeepsOthers(prev: seq<string>, option: string)
    ensures forall x :: x != option ==> multiset(Without(prev, option))[x] == multiset(prev)[x]
    ensures multiset(Without(prev, option))[option] == 0
    decreases |prev|
  {
    if prev != [] {
      WithoutKeepsOthers(prev[1..], option);
      assert prev == [prev[0]] + prev[1..];
    }
  }

  /** Without the option there is nothing to drop. */
  lemma {:induction false} WithoutAbsent(prev: seq<string>, option: string)
    requires option !in prev
    ensures Without(prev, option) == prev
    decreases |prev|
  {
    if prev != [] {
      WithoutAbsent(prev[1..], option);
      assert prev == [prev[0]] + prev[1..];
    }
  }

  /**
    In multiple mode the option ends up selected exactly when it was not selected before:
    a new option goes at the end, a selected one is dropped with every occurrence, and every
    other option keeps its occurrences; in single mode the selection becomes exactly [option].
    Selecting a new option twice gives the selection back.
  */
  lemma HandleSelectSpec(prev: seq<string>, option: string, multiple: bool)
    ensures multiple ==> (option in HandleSelect(prev, option, multiple) <==> option !in prev)
    ensures multiple && option !in prev ==> HandleSelect(prev, option, multiple) == prev + [option]
    ensures multiple ==> forall x :: x != option ==> multiset(HandleSelect(prev, option, multiple))[x] == multiset(prev)[x]
    ensures multiple && option !in prev ==> HandleSelect(HandleSelect(prev, option, multiple), option, multiple) == prev
    ensures !multiple ==> HandleSelect(prev, option, multiple) == [option]
  {
    if multiple {
      WithoutKeepsOthers(prev, option);
      if option !in prev {
        WithoutConcat(prev, [option], option);
        WithoutAbsent(prev, option);
        assert Without([option], option) == [];
      }
    }
  }

  /** `parsed.filter((v) => typeof v === "string")`. */
  function StringElements(items: seq<Json>): (r: seq<string>)
    ensures |r| <= |items|
  {
    if items == [] then []
    else (if items[0].JString? then [items[0].s] else []) + StringElements(items[1..])
  }

  /** A string is kept exactly when it is an element of the array; anything else is dropped. */
  lemma {:induction false} StringElementsSpec(items: seq<Json>)
    ensures forall x :: x in StringElements(items) <==> JString(x) in items
    decreases |items|
  {
    if items != [] {
      StringElementsSpec(items[1..]);
      assert items == [items[0]] + items[1..];
    }
  }

  /** An array made only of strings gives back exactly those strings, in order. */
  lemma {:induction false} StringsRoundTrip(xs: seq<string>)
    ensures StringElements(seq(|xs|, i requires 0 <= i < |xs| => JString(xs[i]))) == xs
    decreases |xs|
  {
    if xs != [] {
      var items := seq(|xs|, i requires 0 <= i < |xs| => JString(xs[i]));
      StringsRoundTrip(xs[1..]);
      assert items[1..] == seq(|xs[1..]|, i requires 0 <= i < |xs[1..]| => JString(xs[1..][i]));
    }
  }

  function StorageKey(id: string): string {
    "filter-dropdown-" + id
  }

  /**
    The selection after the loading effect: the string elements of a saved JSON array; else
    the first option; else the selection as it was.
  */
  function LoadedSelection(saved: Option<string>, parse: string -> Option<Json>, options: seq<string>, current: seq<string>): seq<string> {
    if saved.Some? && saved.value != "" && parse(saved.value).Some? && parse(saved.value).value.JArray? then
      StringElements(parse(saved.value).value.items)
    else if |options| > 0 then [options[0]]
    else current
  }

  /** The dropdown's state: the selection, the browser's local storage and the selections reported to `onChange`. */
  class Dropdown {
    var selected: seq<string>
    var storage: map<string, string>
    var reported: seq<seq<string>>

    constructor(storage: map<string, string>)
      ensures selected == [] && this.storage == storage && reported == []
    {
      selected, this.storage, reported := [], storage, [];
    }

    /** The loading effect. */
    method Load(id: string, options: seq<string>, parse: string -> Option<Json>)
      modifies this
      ensures selected == LoadedSelection(
        if StorageKey(id) in storage then Some(storage[StorageKey(id)]) else None, parse, options, old(selected))
      ensures storage == old(storage) && reported == old(reported)
    {
      var key := StorageKey(id);
      var saved := if key in storage then Some(storage[key]) else None;
      selected := LoadedSelection(saved, parse, options, selected);
    }

    /** The saving effect: only a non-empty selection is stored and reported. */
    method Save(id: string, stringify: seq<string> -> string)
      modifies this
      ensures |selected| > 0 ==> storage == old(storage)[StorageKey(id) := stringify(selected)] && reported == old(reported) + [selected]
      ensures |selected| == 0 ==> storage == old(storage) && reported == old(reported)
      ensures selected == old(selected)
    {
      if |selected| > 0 {
        storage := storage[StorageKey(id) := stringify(selected)];
        reported := reported + [selected];
      }
    }

    method Select(option: string, multiple: bool)
      modifies this
      ensures selected == HandleSelect(old(selected), option, multiple)
      ensures storage == old(storage) && reported == old(reported)
    {
      selected := HandleSelect(selected, option, multiple);
    }
  }

  /**
    Restoring: a saved array gives its string elements, whatever the options. A missing or
    empty saved value, one that does not parse and one that is not an array all fall back: the
    selection is the first option, and with no options it stays as it was (empty at first).
  */
  lemma LoadedSelectionSpec(saved: Option<string>, parse: string -> Option<Json>, options: seq<string>, current: seq<string>)
    ensures var r := LoadedSelection(saved, parse, options, current);
      && (saved.Some? && saved.value != "" && parse(saved.value).Some? && parse(saved.value).value.JArray? ==>
            forall x :: x in r <==> JString(x) in parse(saved.value).value.items)
      && (!(saved.Some? && saved.value != "" && parse(saved.value).Some? && parse(saved.value).value.JArray?) ==>
            (|options| > 0 ==> r == [options[0]]) && (|options| == 0 ==> r == current))
  {
    if saved.Some? && saved.value != "" && parse(saved.value).Some? && parse(saved.value).value.JArray? {
      StringElementsSpec(parse(saved.value).value.items);
    }
  }

  /**
    Saving then loading restores the selection: when `parse` reads back what `stringify` wrote
    as the array of the selected strings, a non-empty selection stored under the dropdown's key
    is the selection the loading effect restores.
  */
  lemma PersistRoundTrip(
    selected: seq<string>, storage: map<string, string>, id: string, options: seq<string>, current: seq<string>,
    parse: string -> Option<Json>, stringify: seq<string> -> string)
    requires |selected| > 0
    requires stringify(selected) != ""
    requires parse(stringify(selected)) == Some(JArray(seq(|selected|, i requires 0 <= i < |selected| => JString(selected[i]))))
    ensures var stored := storage[StorageKey(id) := stringify(selected)];
      LoadedSelection(Some(stored[StorageKey(id)]), parse, options, current) == selected
  {
    StringsRoundTrip(selected);
  }
}
