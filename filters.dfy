/** The filter tab bar (src/components/Filters.tsx): the three options in their fixed order,
    the arrow-key navigation that cycles through them, and the optional count badges. */
module Filters {
  import opened Wrappers
  import opened Types

  /** `OPTIONS`, in display order. */
  const Options: seq<Filter> := [All, Pending, Done]

  /** The option's `id`, the value the tab bar reports through `onChange`. */
  function FilterId(f: Filter): string {
    match f
    case All => "all"
    case Pending => "pending"
    case Done => "done"
  }

  /** Distinct filters have distinct ids. */
  lemma FilterIdInjective(f: Filter, g: Filter)
    ensures FilterId(f) == FilterId(g) <==> f == g
  {
    if f != g {
      assert |FilterId(f)| != |FilterId(g)|;
    }
  }

  /** `OPTIONS.findIndex((o) => o.id === value)`, searching from position `from`. */
  function IndexFrom(value: string, from: nat): (r: Option<nat>)
    requires from <= |Options|
    decreases |Options| - from
    ensures r.Some? ==> from <= r.value < |Options| && FilterId(Options[r.value]) == value
    ensures r.Some? ==> forall k :: from <= k < r.value ==> FilterId(Options[k]) != value
    ensures r.None? ==> forall k :: from <= k < |Options| ==> FilterId(Options[k]) != value
  {
    if from == |Options| then None
    else if FilterId(Options[from]) == value then Some(from)
    else IndexFrom(value, from + 1)
  }

  /** The position of the option whose id is `value`, if any. */
  function IndexOf(value: string): (r: Option<nat>)
    ensures r.Some? ==> r.value < |Options| && FilterId(Options[r.value]) == value
    ensures r.None? <==> forall f :: FilterId(f) != value
  {
    var r := IndexFrom(value, 0);
    if r.None? then
      assert forall f :: FilterId(f) == FilterId(Options[Position(f)]);
      r
    else r
  }

  /** Where each filter sits in `Options`. */
  function Position(f: Filter): (i: nat)
    ensures i < |Options| && Options[i] == f
  {
    match f
    case All => 0
    case Pending => 1
    case Done => 2
  }

  /** Every option is found at its own position. */
  lemma IndexOfId(f: Filter)
    ensures IndexOf(FilterId(f)) == Some(Position(f))
  {
    var r := IndexOf(FilterId(f));
    FilterIdInjective(Options[r.value], f);
  }

  /** The cyclic order the arrow keys follow, written out: all, pending, done, all. */
  function Succ(f: Filter): Filter {
    match f
    case All => Pending
    case Pending => Done
    case Done => All
  }

  function Pred(f: Filter): Filter {
    match f
    case All => Done
    case Pending => All
    case Done => Pending
  }

  predicate IsNextKey(key: string) {
    key == "ArrowRight" || key == "ArrowDown"
  }

  predicate IsPreviousKey(key: string) {
    key == "ArrowLeft" || key == "ArrowUp"
  }

  /** `handleKey`: the filter `onChange` receives for a key pressed while `value` is
      selected, if any. Indices wrap around both ends, and a value that is no option's id
      makes every key a no-op (the `i < 0` guard). */
  function HandleKey(value: string, key: string): (r: Option<Filter>)
    ensures r.Some? ==> IsNextKey(key) || IsPreviousKey(key)
    ensures (forall f :: FilterId(f) != value) ==> r.None?
  {
    match IndexOf(value)
    case None => None
    case Some(i) =>
      if IsNextKey(key) then Some(Options[(i + 1) % |Options|])
      else if IsPreviousKey(key) then Some(Options[(i - 1 + |Options|) % |Options|])
      else None
  }

  /** From any selected filter, the next keys select its successor, the previous keys its
      predecessor, and every other key selects nothing. */
  lemma HandleKeyCycles(f: Filter, key: string)
    ensures IsNextKey(key) ==> HandleKey(FilterId(f), key) == Some(Succ(f))
    ensures IsPreviousKey(key) ==> HandleKey(FilterId(f), key) == Some(Pred(f))
    ensures !IsNextKey(key) && !IsPreviousKey(key) ==> HandleKey(FilterId(f), key).None?
  {
    IndexOfId(f);
  }

  /** Moving forward then back returns to the start, and three moves forward go all the way
      round. */
  lemma {:induction false} NavigationCycles(f: Filter)
    ensures HandleKey(FilterId(HandleKey(FilterId(f), "ArrowRight").value), "ArrowLeft") == Some(f)
    ensures HandleKey(FilterId(HandleKey(FilterId(f), "ArrowUp").value), "ArrowDown") == Some(f)
    ensures HandleKey(FilterId(HandleKey(FilterId(HandleKey(FilterId(f), "ArrowRight").value), "ArrowRight").value), "ArrowRight") == Some(f)
  {
    HandleKeyCycles(f, "ArrowRight");
    HandleKeyCycles(Succ(f), "ArrowLeft");
    HandleKeyCycles(f, "ArrowUp");
    HandleKeyCycles(Pred(f), "ArrowDown");
    HandleKeyCycles(Succ(f), "ArrowRight");
    HandleKeyCycles(Succ(Succ(f)), "ArrowRight");
  }

  /** The optional `counts` prop. */
  datatype Counts = Counts(all: int, pending: int, done: int)

  /** The number a tab would show: the matching count, or 0 when no counts were passed (the
      badge itself is then not rendered). */
  function CountFor(counts: Option<Counts>, f: Filter): (n: int)
    ensures counts.None? ==> n == 0
    ensures counts.Some? && f == All ==> n == counts.value.all
    ensures counts.Some? && f == Pending ==> n == counts.value.pending
    ensures counts.Some? && f == Done ==> n == counts.value.done
  {
    match counts
    case None => 0
    case Some(c) =>
      match f
      case All => c.all
      case Pending => c.pending
      case Done => c.done
  }

  /** Exactly the tab whose id is the value is marked selected. */
  predicate Selected(value: string, f: Filter) {
    value == FilterId(f)
  }

  /** Any value marks at most one tab as selected. */
  lemma AtMostOneSelected(value: string, f: Filter, g: Filter)
    requires Selected(value, f) && Selected(value, g)
    ensures f == g
  {
    FilterIdInjective(f, g);
  }
}
